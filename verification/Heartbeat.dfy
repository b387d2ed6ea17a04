/** The heartbeat observer shared by the UDP and TCP publishers. */
module Heartbeats {
  import opened Words

  type Time = nat

  // How many ticks lie between two checks (0: check always) and the silence that is tolerated.
  datatype Config = Config(checkEvery: nat, timeout: nat)

  function Wrap32(n: int): U32 { n % 0x1_0000_0000 }
  function Wrap64(n: int): U64 { n % 0x1_0000_0000_0000_0000 }

  predicate CheckDue(c: Config, tick: nat) {
    c.checkEvery == 0 || tick % c.checkEvery == 0
  }

  // next_hb_check is not zero; the silence is computed on size_t.
  predicate Silent(c: Config, tick: U64, lastHb: Time, now: Time) {
    CheckDue(c, tick) && Wrap64(now - lastHb) > c.timeout
  }

  // The same, said of a receiver that has been sent so many messages: the next is one of every so
  // many, and the clock shows too long a silence.
  predicate DueAndSilent(c: Config, sent: nat, heard: Time, now: Time) {
    && (c.checkEvery == 0 || (sent + 1) % 0x1_0000_0000_0000_0000 % c.checkEvery == 0)
    && (now - heard) % 0x1_0000_0000_0000_0000 > c.timeout
  }

  /** The check of the next tick looks at the clock exactly at every n-th send, every one if n is 0. */
  lemma SilentIff(c: Config, sent: nat, heard: Time, now: Time)
    ensures Silent(c, Wrap64(Wrap64(sent) + 1), heard, now) <==> DueAndSilent(c, sent, heard, now)
  {
    WrapNext64(sent);
  }

  lemma DueMeans(c: Config, exempt: bool, sent: nat, heard: Time, now: Time)
    requires exempt || DueAndSilent(c, sent, heard, now)
    ensures exempt || c.checkEvery == 0 || (sent + 1) % 0x1_0000_0000_0000_0000 % c.checkEvery == 0
    ensures exempt || (now - heard) % 0x1_0000_0000_0000_0000 > c.timeout
  {
  }

  lemma WrapNext32(n: nat)
    ensures Wrap32(Wrap32(n) + 1) == Wrap32(n + 1)
  {
  }

  lemma WrapNext64(n: nat)
    ensures Wrap64(Wrap64(n) + 1) == Wrap64(n + 1)
  {
  }
}
