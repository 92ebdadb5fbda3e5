/** The data of common/http_parser: the parser record of http_parser.h, the enumerations of
    http_parser.c, its character classes, and the log of callbacks a run makes. */
module HttpTypes {

  /** A byte of input. */
  type Octet = c: char | c as int < 256 witness 'a'

  const CR: Octet := '\r'
  const LF: Octet := '\n'
  const TAB: Octet := '\t'

  /** The largest 64-bit value; as a content length it means "no length given". */
  const ULLONG_MAX: nat := 0xFFFF_FFFF_FFFF_FFFF

  const MAX_HEADER_SIZE: nat := 80 * 1024

  datatype ParserType = Request | Response | Both

  datatype State =
    | Dead | StartReqOrRes | ResOrRespH
    | StartRes | ResH | ResHT | ResHTT | ResHTTP
    | ResFirstMajor | ResMajor | ResFirstMinor | ResMinor
    | ResFirstStatusCode | ResStatusCode | ResStatusStart | ResStatus | ResLineAlmostDone
    | StartReq | ReqMethod | ReqSpacesBeforeUrl
    | ReqSchema | ReqSchemaSlash | ReqSchemaSlashSlash | ReqServerStart | ReqServer | ReqServerWithAt
    | ReqPath | ReqQueryStart | ReqQuery | ReqFragmentStart | ReqFragment
    | ReqHttpStart | ReqHttpH | ReqHttpHT | ReqHttpHTT | ReqHttpHTTP
    | ReqFirstMajor | ReqMajor | ReqFirstMinor | ReqMinor | ReqLineAlmostDone
    | FieldStart | Field | ValueDiscardWs | ValueDiscardWsAlmostDone | ValueDiscardLws
    | ValueStart | Value | ValueLws | HeaderAlmostDone
    | ChunkSizeStart | ChunkSize | ChunkParameters | ChunkSizeAlmostDone
    | HeadersAlmostDone | HeadersDone
    | ChunkData | ChunkDataAlmostDone | ChunkDataDone
    | BodyIdentity | BodyIdentityEof | MessageDone

  datatype HeaderState =
    | General | HC | HCO | HCON
    | MatchingConnection | MatchingProxyConnection | MatchingContentLength
    | MatchingTransferEncoding | MatchingUpgrade
    | Connection | ContentLength | TransferEncoding | Upgrade
    | MatchingChunked | MatchingKeepAlive | MatchingClose
    | Chunked | KeepAlive | Close

  datatype Method =
    | DELETE | GET | HEAD | POST | PUT | CONNECT | OPTIONS | TRACE
    | COPY | LOCK | MKCOL | MOVE | PROPFIND | PROPPATCH | SEARCH | UNLOCK
    | REPORT | MKACTIVITY | CHECKOUT | MERGE
    | MSEARCH | NOTIFY | SUBSCRIBE | UNSUBSCRIBE | PATCH | PURGE

  datatype Errno =
    | OK | INVALID_EOF_STATE | HEADER_OVERFLOW | CLOSED_CONNECTION
    | INVALID_VERSION | INVALID_STATUS | INVALID_METHOD | INVALID_URL
    | LF_EXPECTED | INVALID_HEADER_TOKEN | INVALID_CONTENT_LENGTH | INVALID_CHUNK_SIZE
    | INVALID_CONSTANT | STRICT

  /** The six bits of the `flags` field. */
  datatype Flags = Flags(chunked: bool, keepAlive: bool, close: bool, trailing: bool, upgrade: bool, skipBody: bool)

  const NO_FLAGS := Flags(false, false, false, false, false, false)

  /** The value of an http_parser record between two bytes. */
  datatype Parser = Parser(
    kind: ParserType,
    flags: Flags,
    state: State,
    headerState: HeaderState,
    index: nat,
    nread: nat,
    contentLength: nat,
    major: nat,
    minor: nat,
    statusCode: nat,
    httpMethod: Method,
    errno: Errno,
    upgrade: bool)

  /** What http_parser_init leaves behind. */
  function Init(kind: ParserType): Parser {
    Parser(kind, NO_FLAGS,
           match kind case Request => StartReq case Response => StartRes case Both => StartReqOrRes,
           General, 0, 0, 0, 0, 0, 0, DELETE, OK, false)
  }

  /** The on_headers_complete callback: may answer "this message has no body". */
  type SkipBody = Parser -> bool

  // ---------- callbacks ----------

  datatype DataKind = UrlData | StatusData | FieldData | ValueData | BodyData

  datatype Event =
    | MessageBegin
    | HeadersComplete
    | MessageComplete
    | Data(kind: DataKind, bytes: seq<Octet>)

  /** Adds one callback to a log.  A field may be reported in several pieces, so a data callback
      continues a preceding one of the same kind. */
  function Append(log: seq<Event>, e: Event): seq<Event> {
    if e.Data? && |log| > 0 && log[|log| - 1].Data? && log[|log| - 1].kind == e.kind then
      log[..|log| - 1] + [Data(e.kind, log[|log| - 1].bytes + e.bytes)]
    else
      log + [e]
  }

  function AppendAll(log: seq<Event>, es: seq<Event>): seq<Event>
    decreases |es|
  {
    if es == [] then log else AppendAll(Append(log, es[0]), es[1..])
  }

  /** Reporting a field in two pieces is reporting it in one. */
  lemma AppendData(log: seq<Event>, k: DataKind, a: seq<Octet>, b: seq<Octet>)
    ensures Append(Append(log, Data(k, a)), Data(k, b)) == Append(log, Data(k, a + b))
  {
    var l := Append(log, Data(k, a));
    assert l[|l| - 1].Data? && l[|l| - 1].kind == k;
    if |log| > 0 && log[|log| - 1].Data? && log[|log| - 1].kind == k {
      var c := log[|log| - 1].bytes;
      assert c + a + b == c + (a + b);
    } else {
      assert l[..|l| - 1] == log;
    }
  }

  lemma {:induction false} AppendAllSplit(log: seq<Event>, a: seq<Event>, b: seq<Event>)
    ensures AppendAll(log, a + b) == AppendAll(AppendAll(log, a), b)
    decreases |a|
  {
    if a == [] {
      assert a + b == b;
    } else {
      assert (a + b)[0] == a[0] && (a + b)[1..] == a[1..] + b;
      AppendAllSplit(Append(log, a[0]), a[1..], b);
    }
  }

  lemma AppendNone(log: seq<Event>)
    ensures AppendAll(log, []) == log
  {
  }

  lemma AppendOne(log: seq<Event>, e: Event)
    ensures AppendAll(log, [e]) == Append(log, e)
  {
    assert [e][1..] == [];
  }

  lemma AppendCons(log: seq<Event>, e: Event, es: seq<Event>)
    ensures AppendAll(log, [e] + es) == AppendAll(Append(log, e), es)
  {
    assert ([e] + es)[0] == e && ([e] + es)[1..] == es;
  }

  lemma AppendTwo(log: seq<Event>, a: Event, b: Event)
    ensures AppendAll(log, [a, b]) == Append(Append(log, a), b)
  {
    hide Append;
    assert [a] + [b] == [a, b];
    AppendCons(log, a, [b]);
    AppendOne(Append(log, a), b);
  }

  // ---------- character classes (HTTP_PARSER_STRICT) ----------

  /** `c | 0x20` */
  function Lower(c: Octet): Octet {
    if (c as int / 32) % 2 == 0 then (c as int + 32) as char else c
  }

  predicate IsNum(c: Octet) { '0' <= c <= '9' }

  predicate IsAlpha(c: Octet) { 'a' <= Lower(c) <= 'z' }

  predicate IsMark(c: Octet) { c in "-_.!~*'()" }

  predicate IsUserinfoChar(c: Octet) {
    IsAlpha(c) || IsNum(c) || IsMark(c) || c in "%;:&=+$,"
  }

  /** The `normal_url_char` table: every visible ASCII character but '#' and '?'. */
  predicate IsUrlChar(c: Octet) { '!' <= c <= '~' && c != '#' && c != '?' }

  /** Nonzero entries of the `tokens` table. */
  predicate IsToken(c: Octet) {
    ('!' <= c <= '~') && c !in "\"(),/:;<=>?@[\\]{}"
  }

  /** The entry of the `tokens` table for a token: letters are lowercased. */
  function Token(c: Octet): Octet {
    if 'A' <= c <= 'Z' then (c as int + 32) as char else c
  }

  /** The `unhex` table.  Its initializer stops after 128 entries, so the bytes above 127 are
      not marked -1: they read as the digit 0. */
  function Unhex(c: Octet): (v: int)
    ensures -1 <= v < 16
  {
    if '0' <= c <= '9' then c as int - '0' as int
    else if 'A' <= c <= 'F' then c as int - 'A' as int + 10
    else if 'a' <= c <= 'f' then c as int - 'a' as int + 10
    else if c as int >= 128 then 0
    else -1
  }

  function MethodString(m: Method): seq<Octet> {
    match m
    case DELETE => "DELETE"
    case GET => "GET"
    case HEAD => "HEAD"
    case POST => "POST"
    case PUT => "PUT"
    case CONNECT => "CONNECT"
    case OPTIONS => "OPTIONS"
    case TRACE => "TRACE"
    case COPY => "COPY"
    case LOCK => "LOCK"
    case MKCOL => "MKCOL"
    case MOVE => "MOVE"
    case PROPFIND => "PROPFIND"
    case PROPPATCH => "PROPPATCH"
    case SEARCH => "SEARCH"
    case UNLOCK => "UNLOCK"
    case REPORT => "REPORT"
    case MKACTIVITY => "MKACTIVITY"
    case CHECKOUT => "CHECKOUT"
    case MERGE => "MERGE"
    case MSEARCH => "M-SEARCH"
    case NOTIFY => "NOTIFY"
    case SUBSCRIBE => "SUBSCRIBE"
    case UNSUBSCRIBE => "UNSUBSCRIBE"
    case PATCH => "PATCH"
    case PURGE => "PURGE"
  }

  const CONNECTION: string := "connection"
  const PROXY_CONNECTION: string := "proxy-connection"
  const CONTENT_LENGTH: string := "content-length"
  const TRANSFER_ENCODING: string := "transfer-encoding"
  const UPGRADE: string := "upgrade"
  const CHUNKED: string := "chunked"
  const KEEP_ALIVE: string := "keep-alive"
  const CLOSE: string := "close"

  // ---------- state classes ----------

  /** PARSING_HEADER: the states up to s_headers_done, in the order of the enumeration. */
  predicate ParsingHeader(s: State) {
    !(s.ChunkData? || s.ChunkDataAlmostDone? || s.ChunkDataDone? ||
      s.BodyIdentity? || s.BodyIdentityEof? || s.MessageDone?)
  }

  predicate UrlState(s: State) {
    s.ReqSchema? || s.ReqSchemaSlash? || s.ReqSchemaSlashSlash? ||
    s.ReqServerStart? || s.ReqServer? || s.ReqServerWithAt? ||
    s.ReqPath? || s.ReqQueryStart? || s.ReqQuery? || s.ReqFragmentStart? || s.ReqFragment?
  }
}
