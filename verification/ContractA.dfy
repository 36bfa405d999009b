/** The wire vocabulary the rest of the model shares: the edge enumeration, its canonical
    order and parser, the constants of the contract, and the character class the string
    rules are written in (bibites-mod/src/ContractA.cs). */
module ContractA {

  datatype Option<+T> = None | Some(value: T)

  /** `NoEdge` is the source's `Edge.None`. */
  datatype Edge = NoEdge | N | S | E | W

  const MIGRATE_OUT_TIMEOUT_MS := 5000.0
  const SIM_NOT_READY_GRACE_MS := 2000.0
  const MAX_FRAME_BYTES: nat := 8388608
  const MAX_PAYLOAD_BYTES: nat := 4194304
  const FRAME_HEADROOM_BYTES: nat := 65536
  const MIGRATION_COOLDOWN_SECONDS := 5.0
  const ENTRY_IMMUNITY_SECONDS := 5.0
  const SIM_SIZE_EPSILON := 0.000001

  // ---- edges ---------------------------------------------------------------------------

  /** Canonical declaration order: E, N, W, S. */
  function EdgeRank(edge: Edge): nat {
    match edge
    case E => 0
    case N => 1
    case W => 2
    case S => 3
    case NoEdge => 4
  }

  const ALL_EDGES: seq<Edge> := [E, N, W, S]

  /** The array slot of an edge: the enumeration's own value. */
  function Index(edge: Edge): nat {
    match edge
    case NoEdge => 0
    case N => 1
    case S => 2
    case E => 3
    case W => 4
  }

  // ---- strings -------------------------------------------------------------------------

  /** .NET's `char.IsWhiteSpace`. */
  predicate IsWhiteSpace(c: char) {
    || '\U{0009}' <= c <= '\U{000D}'
    || c == ' '
    || c == '\U{0085}'
    || c == '\U{00A0}'
    || c == '\U{1680}'
    || '\U{2000}' <= c <= '\U{200A}'
    || c == '\U{2028}'
    || c == '\U{2029}'
    || c == '\U{202F}'
    || c == '\U{205F}'
    || c == '\U{3000}'
  }

  function TrimStart(s: string): string {
    if s != [] && IsWhiteSpace(s[0]) then TrimStart(s[1..]) else s
  }

  function TrimEnd(s: string): string {
    if s != [] && IsWhiteSpace(s[|s| - 1]) then TrimEnd(s[..|s| - 1]) else s
  }

  function Trim(s: string): string {
    TrimEnd(TrimStart(s))
  }

  /** Invariant upper case of one character (ASCII only). */
  function Upper(c: char): char {
    if 'a' <= c <= 'z' then (c as int - 32) as char else c
  }

  /** Invariant lower case of one character (ASCII only). */
  function Lower(c: char): char {
    if 'A' <= c <= 'Z' then (c as int + 32) as char else c
  }

  /** The representative under which a case-insensitive set files a string. */
  function Fold(s: string): (r: string)
    ensures |r| == |s|
    ensures forall i | 0 <= i < |s| :: r[i] == Lower(s[i])
  {
    seq(|s|, i requires 0 <= i < |s| => Lower(s[i]))
  }

  function TryParseEdge(text: string): Option<Edge> {
    var t := Trim(text);
    if |t| != 1 then None
    else match Upper(t[0])
      case 'N' => Some(N)
      case 'S' => Some(S)
      case 'E' => Some(E)
      case 'W' => Some(W)
      case _ => None
  }

  // ---- sizes ---------------------------------------------------------------------------

  function Abs(x: real): real {
    if x < 0.0 then -x else x
  }

  function Max(x: real, y: real): real {
    if x < y then y else x
  }

  /** The one relative test for two simulation half-extents. */
  predicate SimulationSizeEqual(a: real, b: real) {
    Abs(a - b) <= SIM_SIZE_EPSILON * Max(1.0, Max(Abs(a), Abs(b)))
  }
}
