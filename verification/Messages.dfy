/** The messages of the protocol as values, with the size constants that bound them. */
module Messages {
  import opened Words

  const INT_DELTA_SIZE := 6
  const DBL_DELTA_SIZE := 18
  const STAMP_DELTA_SIZE := 2
  const SNAPSHOT_FIELDS_NUM := 1024
  const ARCHIVE_BUFF_CAPACITY := 2048
  const HEADER_LEN := 8
  const WIRE_TSTAMP_LEN := 8
  const TAG_SOH: Byte := 1

  // std::string as its bytes; a double is its 64-bit pattern.
  type Str = Bytes
  type Double = U64

  type FieldIndex = x: int | 0 <= x < SNAPSHOT_FIELDS_NUM

  // One entry of the struct-of-arrays data: an index and the value stored beside it.
  datatype Update<T> = Update(idx: U16, val: T)

  datatype MdDeltaData = MdDelta(
    symbol: Str,
    ints: seq<Update<I32>>,
    dbls: seq<Update<Double>>,
    reserved: Byte,
    stamps: seq<U64>)

  // The fixed array sizes of the class.
  predicate FitsArrays(d: MdDeltaData) {
    |d.ints| <= INT_DELTA_SIZE && |d.dbls| <= DBL_DELTA_SIZE && |d.stamps| <= STAMP_DELTA_SIZE
  }

  type Delta = d: MdDeltaData | FitsArrays(d) witness MdDelta([], [], [], 0, [])

  // Reference data: the set bits of each bitset are the keys of the map.
  datatype RefData = RefData(
    symbol: Str,
    ints: map<FieldIndex, I32>,
    dbls: map<FieldIndex, Double>,
    strs: map<FieldIndex, Str>)

  datatype MenuItem = MenuItem(idx: U16, val: Str)

  datatype Msg =
    | Login(version: U16, user: Str, token: Str, params: seq<Str>)
    | LoginReply(version: U16, code: U16, desc: Str, params: seq<Str>)
    | Text(text: Str)
    | Heartbeat(counter: U32)
    | Subscribe(symbols: seq<Str>)
    | MdRef(ref: RefData)
    | MdDeltaMsg(delta: Delta)
    | Menu(menu: seq<MenuItem>)
    | IntVec(ctx: Str, ints: seq<U32>)
    | ByteVec(ctx: Str, bytes: seq<Byte>)
    | DoubleVec(ctx: Str, dbls: seq<Double>)
    | Command(cmd: Byte, ctx: Str, params: seq<Str>)

  const MD_DELTA: Byte := 7

  function MsgType(m: Msg): (t: Byte)
  {
    match m
    case Login(_, _, _, _) => 1
    case LoginReply(_, _, _, _) => 2
    case Text(_) => 3
    case Heartbeat(_) => 4
    case Subscribe(_) => 5
    case MdRef(_) => 6
    case MdDeltaMsg(_) => MD_DELTA
    case Menu(_) => 8
    case IntVec(_, _) => 9
    case ByteVec(_, _) => 10
    case DoubleVec(_, _) => 11
    case Command(_, _, _) => 12
  }

  predicate KnownType(t: Byte) {
    1 <= t <= 12
  }
}
