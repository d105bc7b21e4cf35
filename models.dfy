/** The data model of the log viewer: parsed entries, the query parameters of
    the HTTP handlers with their defaults, the JSON response records, and the
    error and reply shapes every handler produces. */
module Models {

  const U32_LIMIT: nat := 0x1_0000_0000
  const U64_LIMIT: nat := 0x1_0000_0000_0000_0000

  /** Rust's `u32`. */
  type U32 = x: nat | x < U32_LIMIT
  /** Rust's `u64`, and `usize` on the 64-bit targets the server is built for. */
  type U64 = x: nat | x < U64_LIMIT

  datatype Option<T> = None | Some(value: T)

  /** The eight severity tags a parsed line can carry (gstreamer's `DebugLevel`). */
  datatype Level = Error | Warning | Fixme | Info | Debug | Log | Trace | Memdump

  /** `format!("{:?}", level)`: the derived `Debug` rendering, i.e. the variant
      name. The level filter, the serialized entry and the filter-options list
      all use this same rendering. */
  function LevelName(l: Level): string
  {
    match l
    case Error => "Error"
    case Warning => "Warning"
    case Fixme => "Fixme"
    case Info => "Info"
    case Debug => "Debug"
    case Log => "Log"
    case Trace => "Trace"
    case Memdump => "Memdump"
  }

  /** Distinct levels render as distinct names. */
  lemma LevelNameInjective(a: Level, b: Level)
    ensures LevelName(a) == LevelName(b) <==> a == b
  {
  }

  /** One parsed log line. `ts` is the device clock in nanoseconds. */
  datatype Entry = Entry(
    ts: U64,
    pid: U32,
    thread: string,
    level: Level,
    category: string,
    file: string,
    line: U32,
    functionName: string,
    message: string,
    objectName: Option<string>)

  /** The session table: session id to the entries parsed for it, in line order. */
  type SessionTable = map<string, seq<Entry>>

  /** The query-string fields of `/api/logs` as the extractor delivers them,
      before serde applies the field defaults. `categories` is not among them:
      it is skipped by deserialization. */
  datatype QueryParams = QueryParams(
    sessionId: string,
    level: Option<string>,
    messageRegex: Option<string>,
    pid: Option<U32>,
    thread: Option<string>,
    objectName: Option<string>,
    functionRegex: Option<string>,
    page: Option<U64>,
    perPage: Option<U64>,
    minTimestamp: Option<U64>,
    maxTimestamp: Option<U64>,
    useMicroseconds: Option<bool>)

  /** The `LogFilter` record the handlers work with. */
  datatype LogFilter = LogFilter(
    sessionId: string,
    level: Option<string>,
    categories: seq<string>,
    messageRegex: Option<string>,
    pid: Option<U32>,
    thread: Option<string>,
    objectName: Option<string>,
    functionRegex: Option<string>,
    page: U64,
    perPage: U64,
    minTimestamp: Option<U64>,
    maxTimestamp: Option<U64>,
    useMicroseconds: bool)

  function DefaultPage(): U64 { 1 }

  function DefaultPerPage(): U64 { 100 }

  /** Serde's construction of a `LogFilter` from the query fields: absent
      `page` and `per_page` take their defaults, `use_microseconds` defaults
      to false, and the skipped `categories` starts empty. */
  function Deserialize(q: QueryParams): (f: LogFilter)
    ensures f.categories == []
    ensures f.page == (if q.page.Some? then q.page.value else 1)
    ensures f.perPage == (if q.perPage.Some? then q.perPage.value else 100)
    ensures f.useMicroseconds == (q.useMicroseconds == Some(true))
    ensures f.sessionId == q.sessionId && f.level == q.level && f.pid == q.pid
    ensures f.messageRegex == q.messageRegex && f.functionRegex == q.functionRegex
    ensures f.thread == q.thread && f.objectName == q.objectName
    ensures f.minTimestamp == q.minTimestamp && f.maxTimestamp == q.maxTimestamp
  {
    LogFilter(
      q.sessionId, q.level, [], q.messageRegex, q.pid, q.thread, q.objectName,
      q.functionRegex,
      if q.page.Some? then q.page.value else DefaultPage(),
      if q.perPage.Some? then q.perPage.value else DefaultPerPage(),
      q.minTimestamp, q.maxTimestamp,
      if q.useMicroseconds.Some? then q.useMicroseconds.value else false)
  }

  /** An entry as it is sent to the client. */
  datatype SerializableEntry = SerializableEntry(
    ts: string,
    pid: U32,
    thread: string,
    level: string,
    category: string,
    file: string,
    line: U32,
    functionName: string,
    message: string,
    objectName: Option<string>)

  /** `SerializableEntry::from`. The clock display format is a parameter. */
  function FromEntry(e: Entry, displayClock: U64 -> string): SerializableEntry
  {
    SerializableEntry(
      displayClock(e.ts), e.pid, e.thread, LevelName(e.level), e.category,
      e.file, e.line, e.functionName, e.message, e.objectName)
  }

  /** The conversion loses nothing but the timestamp's representation: every
      field it copies reads back unchanged, the level reads back as its name,
      and two entries with the same timestamp that serialize alike are the
      same entry. */
  lemma FromEntryInjective(a: Entry, b: Entry, displayClock: U64 -> string)
    requires a.ts == b.ts
    ensures var r := FromEntry(a, displayClock);
      && r.ts == displayClock(a.ts) && r.pid == a.pid && r.thread == a.thread
      && r.level == LevelName(a.level) && r.category == a.category && r.file == a.file
      && r.line == a.line && r.functionName == a.functionName && r.message == a.message
      && r.objectName == a.objectName
    ensures FromEntry(a, displayClock) == FromEntry(b, displayClock) <==> a == b
  {
    if FromEntry(a, displayClock) == FromEntry(b, displayClock) {
      LevelNameInjective(a.level, b.level);
    }
  }

  /** The clients' rendering of a list of entries. */
  function Render(es: seq<Entry>, displayClock: U64 -> string): (r: seq<SerializableEntry>)
    ensures |r| == |es|
    ensures forall i :: 0 <= i < |es| ==> r[i] == FromEntry(es[i], displayClock)
  {
    seq(|es|, i requires 0 <= i < |es| => FromEntry(es[i], displayClock))
  }

  datatype LogResponse = LogResponse(
    entries: seq<SerializableEntry>,
    total: nat,
    page: nat,
    totalPages: nat)

  datatype FilterOptionsResponse = FilterOptionsResponse(
    categories: seq<string>,
    levels: seq<string>,
    pids: seq<U32>,
    threads: seq<string>,
    objects: seq<string>)

  datatype Status = BadRequest | NotFound

  datatype ApiError = ApiError(status: Status, message: string)

  datatype Result<T> = Ok(value: T) | Err(error: ApiError)

  /** What the query extractor hands a handler: the parsed fields, or the
      text of serde's rejection. */
  datatype Extracted<T> = Parsed(params: T) | Rejection(reason: string)

  /** What a handler produces: a JSON body, an error response, or a panic of
      the handler task (an integer division by zero in the source). */
  datatype Reply<T> = Json(value: T) | Rejected(error: ApiError) | Panicked

  function Min(a: nat, b: nat): nat { if a <= b then a else b }
}
