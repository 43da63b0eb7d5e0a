/**
 Timestamps and API_GetAppDTMInfo (quickbase.go): QuickBase reports times as
 milliseconds since the Unix epoch; `selectNodeToTime` turns one into a time,
 and `GetAppDTMInfo` reads the request times, the application's modification
 times and each table's, stopping at the first problem.
 */
module AppDtm {
  import opened Wrappers
  import opened Strconv

  /** A `time.Time`: Go's zero time, or `time.Unix(sec, nsec)`. */
  datatype Time = ZeroTime | Unix(sec: int, nsec: int)

  /** The instant a `Unix` time denotes, in nanoseconds since the epoch. */
  function Nanos(t: Time): int
    requires t.Unix?
  {
    t.sec * 1_000_000_000 + t.nsec
  }

  /** The conversion as line 267 writes it: the sub-second milliseconds, times 1000, as nanoseconds. */
  function MillisToTimeAsWritten(msecs: int): (t: Time)
    ensures t.Unix? && t.nsec % 1000 == 0 && t.sec * 1000 + t.nsec / 1000 == msecs
    ensures msecs >= 0 ==> 0 <= t.nsec < 1_000_000
    ensures msecs < 0 ==> -1_000_000 < t.nsec <= 0
  {
    GoDivision(msecs, 1000);
    Unix(GoQuo(msecs, 1000), GoRem(msecs, 1000) * 1000)
  }

  /** The conversion the function is meant to perform: the sub-second milliseconds as nanoseconds. */
  function MillisToTime(msecs: int): (t: Time)
    ensures t.Unix? && Nanos(t) == msecs * 1_000_000 && t.nsec % 1_000_000 == 0
    ensures msecs >= 0 ==> 0 <= t.nsec < 1_000_000_000
    ensures msecs < 0 ==> -1_000_000_000 < t.nsec <= 0
  {
    GoDivision(msecs, 1000);
    Unix(GoQuo(msecs, 1000), GoRem(msecs, 1000) * 1_000_000)
  }

  /** As written, the conversion is right exactly for whole seconds. */
  lemma AsWrittenExactOnlyOnWholeSeconds(msecs: int)
    ensures Nanos(MillisToTimeAsWritten(msecs)) == msecs * 1_000_000 <==> GoRem(msecs, 1000) == 0
  {
    var t := MillisToTimeAsWritten(msecs);
    var q, m := GoQuo(msecs, 1000), GoRem(msecs, 1000);
    GoDivision(msecs, 1000);
    assert msecs * 1_000_000 == q * 1_000_000_000 + m * 1_000_000;
    assert Nanos(t) == q * 1_000_000_000 + m * 1000;
  }

  /** 1500 ms, one and a half seconds, comes out as one second and half a millisecond. */
  lemma AsWrittenCounterexample()
    ensures MillisToTimeAsWritten(1500) == Unix(1, 500_000)
    ensures Nanos(MillisToTimeAsWritten(1500)) == 1_000_500_000 != 1500 * 1_000_000
    ensures MillisToTime(1500) == Unix(1, 500_000_000)
  {
    assert GoQuo(1500, 1000) == 1 && GoRem(1500, 1000) == 500;
  }

  /** Why a time could not be read. */
  datatype TimeError =
    | NilRoot               // "Nil root passed in"
    | TagNotFound(name: string)
    | BadMillis(num: NumError)

  /**
   `selectNodeToTime` (lines 256-268). The node searched is given by the text
   of the first element of each name beneath it; `None` is the nil selector.
   */
  function SelectNodeToTime(root: Option<map<string, string>>, name: string): (r: Result<Time, TimeError>)
    ensures root.None? ==> r == Err(NilRoot)
    ensures root.Some? && name !in root.value ==> r == Err(TagNotFound(name))
    ensures r.Ok? <==> root.Some? && name in root.value && ParseInt(root.value[name]).Ok?
    ensures r.Ok? ==> r.value.Unix? && Nanos(r.value) == ParseInt(root.value[name]).value * 1_000_000
    ensures r.Ok? ==> r.value == MillisToTime(ParseInt(root.value[name]).value)
    ensures r.Err? && r.error.BadMillis? ==> ParseInt(root.value[name]) == Err(r.error.num)
  {
    if root.None? then Err(NilRoot)
    else if name !in root.value then Err(TagNotFound(name))
    else match ParseInt(root.value[name])
      case Err(e) => Err(BadMillis(e))
      case Ok(msecs) => Ok(MillisToTime(msecs))
  }

  /**
   `selectNodeToTime` exactly as lines 256-268 write it: the same errors, but the
   time comes from line 267's conversion, which is the intended instant only when
   the count is a whole number of seconds.
   */
  function SelectNodeToTimeAsWritten(root: Option<map<string, string>>, name: string): (r: Result<Time, TimeError>)
    ensures r.Err? <==> SelectNodeToTime(root, name).Err?
    ensures r.Err? ==> r == SelectNodeToTime(root, name)
    ensures r.Ok? ==> r.value == MillisToTimeAsWritten(ParseInt(root.value[name]).value)
    ensures r.Ok? ==> (r.value == SelectNodeToTime(root, name).value <==> GoRem(ParseInt(root.value[name]).value, 1000) == 0)
  {
    if root.None? then Err(NilRoot)
    else if name !in root.value then Err(TagNotFound(name))
    else match ParseInt(root.value[name])
      case Err(e) => Err(BadMillis(e))
      case Ok(msecs) =>
        AsWrittenExactOnlyOnWholeSeconds(msecs);
        Ok(MillisToTimeAsWritten(msecs))
  }

  /** Any 64-bit millisecond count written in decimal is read back as that instant. */
  lemma TimeRoundTrip(values: map<string, string>, name: string, msecs: int)
    requires IsInt64(msecs) && name in values && values[name] == Itoa(msecs)
    ensures SelectNodeToTime(Some(values), name).Ok?
    ensures Nanos(SelectNodeToTime(Some(values), name).value) == msecs * 1_000_000
  {
    ParseItoa("ParseInt", msecs);
  }

  /** An XML attribute: namespace, local name, value. */
  datatype Attr = Attr(space: string, local: string, value: string)

  /** An element as GetAppDTMInfo reads it: its attributes and the text of the named elements beneath it. */
  datatype Elem = Elem(attrs: seq<Attr>, values: map<string, string>)

  /** The reply document: its named texts, the `app` element and the `table` elements under `tables`. */
  datatype DtmDoc = DtmDoc(values: map<string, string>, app: Option<Elem>, tables: Option<seq<Elem>>)

  /** `SchemaModification`: a dbid and its two modification times. */
  datatype SchemaModification = SchemaModification(dbid: string, schemaModified: Time, recordModified: Time)

  const NoModification := SchemaModification("", ZeroTime, ZeroTime)

  datatype DtmError =
    | TimeFailed(cause: TimeError)
    | NoApp            // "No app returned"
    | MissingAppId     // "Missing table dbid in app"
    | NoTables         // "No tables returned"
    | MissingTableId   // "Missing table dbid in table"

  /** All five results of GetAppDTMInfo; whatever was read before an error is kept. */
  datatype DtmInfo = DtmInfo(received: Time, nextAllowed: Time, app: SchemaModification,
                             tables: seq<SchemaModification>, error: Option<DtmError>)

  predicate IsIdAttr(a: Attr) {
    a.space == "" && a.local == "id"
  }

  /** The value of the first un-namespaced `id` attribute, or "" when there is none (lines 201-207, 226-232). */
  function FirstId(attrs: seq<Attr>): (id: string)
    ensures (forall i :: 0 <= i < |attrs| ==> !IsIdAttr(attrs[i])) ==> id == ""
    ensures (exists i :: 0 <= i < |attrs| && IsIdAttr(attrs[i])) ==>
              exists i :: 0 <= i < |attrs| && IsIdAttr(attrs[i]) && id == attrs[i].value
                          && forall j :: 0 <= j < i ==> !IsIdAttr(attrs[j])
    decreases |attrs|
  {
    if attrs == [] then ""
    else if IsIdAttr(attrs[0]) then attrs[0].value
    else
      var id := FirstId(attrs[1..]);
      assert forall i :: 1 <= i < |attrs| ==> attrs[i] == attrs[1..][i - 1];
      id
  }

  /** One `table` element (lines 225-245): its id, then its two times. */
  function ReadTable(e: Elem): (r: Result<SchemaModification, DtmError>)
    ensures r.Ok? <==> FirstId(e.attrs) != "" && SelectNodeToTime(Some(e.values), "lastModifiedTime").Ok?
                       && SelectNodeToTime(Some(e.values), "lastRecModTime").Ok?
    ensures r.Ok? ==> r.value.dbid == FirstId(e.attrs)
                      && r.value.schemaModified.Unix? && r.value.recordModified.Unix?
                      && Nanos(r.value.schemaModified) == ParseInt(e.values["lastModifiedTime"]).value * 1_000_000
                      && Nanos(r.value.recordModified) == ParseInt(e.values["lastRecModTime"]).value * 1_000_000
    ensures FirstId(e.attrs) == "" ==> r == Err(MissingTableId)
  {
    var id := FirstId(e.attrs);
    if id == "" then Err(MissingTableId)
    else match SelectNodeToTime(Some(e.values), "lastModifiedTime")
      case Err(err) => Err(TimeFailed(err))
      case Ok(schema) =>
        match SelectNodeToTime(Some(e.values), "lastRecModTime")
        case Err(err) => Err(TimeFailed(err))
        case Ok(rec) => Ok(SchemaModification(id, schema, rec))
  }

  datatype TablesRead = TablesRead(mods: seq<SchemaModification>, error: Option<DtmError>)

  /** The table loop (lines 224-247): tables are read in order until one fails. */
  function ReadTables(tables: seq<Elem>): (r: TablesRead)
    ensures r.error.None? <==> AllTablesRead(tables)
    ensures forall i :: 0 <= i < |r.mods| ==> i < |tables| && ReadTable(tables[i]) == Ok(r.mods[i])
  {
    var outcomes := seq(|tables|, i requires 0 <= i < |tables| => ReadTable(tables[i]));
    CollectPrefix(outcomes);
    assert forall i :: 0 <= i < |tables| ==> outcomes[i] == ReadTable(tables[i]);
    Collect(outcomes)
  }

  /** Keeps the successful outcomes up to the first failure, and that failure. */
  function Collect(outcomes: seq<Result<SchemaModification, DtmError>>): TablesRead
    decreases |outcomes|
  {
    if outcomes == [] then TablesRead([], None)
    else match outcomes[0]
      case Err(e) => TablesRead([], Some(e))
      case Ok(m) =>
        var rest := Collect(outcomes[1..]);
        TablesRead([m] + rest.mods, rest.error)
  }

  lemma {:induction false} CollectPrefix(outcomes: seq<Result<SchemaModification, DtmError>>)
    ensures |Collect(outcomes).mods| <= |outcomes|
    ensures forall i :: 0 <= i < |Collect(outcomes).mods| ==> outcomes[i] == Ok(Collect(outcomes).mods[i])
    ensures Collect(outcomes).error.None? ==> |Collect(outcomes).mods| == |outcomes|
    ensures Collect(outcomes).error.Some? ==>
              |Collect(outcomes).mods| < |outcomes| && outcomes[|Collect(outcomes).mods|] == Err(Collect(outcomes).error.value)
    decreases |outcomes|
  {
    if outcomes != [] && outcomes[0].Ok? {
      var rest := Collect(outcomes[1..]);
      CollectPrefix(outcomes[1..]);
      var r := Collect(outcomes);
      assert r.mods == [outcomes[0].value] + rest.mods && r.error == rest.error;
      forall i | 1 <= i <= |rest.mods| && i < |outcomes|
        ensures outcomes[i] == outcomes[1..][i - 1] && r.mods[i] == rest.mods[i - 1]
      {
      }
    }
  }

  /** The tables returned are the ones before the first table that fails, and that table's error. */
  lemma ReadTablesPrefix(tables: seq<Elem>)
    ensures |ReadTables(tables).mods| <= |tables|
    ensures forall i :: 0 <= i < |ReadTables(tables).mods| ==> ReadTable(tables[i]) == Ok(ReadTables(tables).mods[i])
    ensures ReadTables(tables).error.None? ==> |ReadTables(tables).mods| == |tables|
    ensures ReadTables(tables).error.Some? ==>
              |ReadTables(tables).mods| < |tables| && ReadTable(tables[|ReadTables(tables).mods|]) == Err(ReadTables(tables).error.value)
  {
    CollectPrefix(seq(|tables|, i requires 0 <= i < |tables| => ReadTable(tables[i])));
  }

  /** Every table reads cleanly. */
  predicate AllTablesRead(tables: seq<Elem>) {
    forall i :: 0 <= i < |tables| ==> ReadTable(tables[i]).Ok?
  }

  /** Both request times read cleanly. */
  predicate TimesRead(doc: DtmDoc) {
    && SelectNodeToTime(Some(doc.values), "RequestTime").Ok?
    && SelectNodeToTime(Some(doc.values), "RequestNextAllowedTime").Ok?
  }

  /** The request times, and the `app` element with its id and both times, read cleanly. */
  predicate AppRead(doc: DtmDoc) {
    && TimesRead(doc)
    && doc.app.Some?
    && FirstId(doc.app.value.attrs) != ""
    && SelectNodeToTime(Some(doc.app.value.values), "lastModifiedTime").Ok?
    && SelectNodeToTime(Some(doc.app.value.values), "lastRecModTime").Ok?
  }

  /** Everything GetAppDTMInfo needs is present and well formed. */
  predicate Complete(doc: DtmDoc) {
    && AppRead(doc)
    && doc.tables.Some?
    && AllTablesRead(doc.tables.value)
  }

  /**
   GetAppDTMInfo after its call has succeeded (lines 188-249). Each result is
   filled in as it is read, and an error leaves the earlier results in place and
   the later ones at their zero values.
   */
  function GetAppDtmInfo(doc: DtmDoc): (r: DtmInfo)
    ensures r.error.None? <==> Complete(doc)
    ensures r.error.None? ==> |r.tables| == |doc.tables.value| && r.app.dbid == FirstId(doc.app.value.attrs)
    ensures forall i :: 0 <= i < |r.tables| ==>
              doc.tables.Some? && i < |doc.tables.value| && ReadTable(doc.tables.value[i]) == Ok(r.tables[i])
    ensures r.app.dbid != "" ==> doc.app.Some? && r.app.dbid == FirstId(doc.app.value.attrs)
    // The request times.
    ensures var t := SelectNodeToTime(Some(doc.values), "RequestTime");
            if t.Ok? then r.received == t.value
            else r.received == ZeroTime && r.nextAllowed == ZeroTime && r.error == Some(TimeFailed(t.error))
    ensures var n := SelectNodeToTime(Some(doc.values), "RequestNextAllowedTime");
            SelectNodeToTime(Some(doc.values), "RequestTime").Ok? ==>
              if n.Ok? then r.nextAllowed == n.value else r.nextAllowed == ZeroTime && r.error == Some(TimeFailed(n.error))
    ensures !TimesRead(doc) ==> r.app == NoModification && r.tables == []
    // The app element.
    ensures TimesRead(doc) && doc.app.None? ==> r.error == Some(NoApp) && r.app == NoModification && r.tables == []
    ensures TimesRead(doc) && doc.app.Some? && FirstId(doc.app.value.attrs) == "" ==>
              r.error == Some(MissingAppId) && r.app == NoModification && r.tables == []
    ensures TimesRead(doc) && doc.app.Some? && FirstId(doc.app.value.attrs) != "" ==>
              var schema := SelectNodeToTime(Some(doc.app.value.values), "lastModifiedTime");
              var rec := SelectNodeToTime(Some(doc.app.value.values), "lastRecModTime");
              && r.app.dbid == FirstId(doc.app.value.attrs)
              && r.app.schemaModified == (if schema.Ok? then schema.value else ZeroTime)
              && r.app.recordModified == (if schema.Ok? && rec.Ok? then rec.value else ZeroTime)
              && (schema.Err? ==> r.error == Some(TimeFailed(schema.error)) && r.tables == [])
              && (schema.Ok? && rec.Err? ==> r.error == Some(TimeFailed(rec.error)) && r.tables == [])
    // The tables.
    ensures AppRead(doc) && doc.tables.None? ==> r.error == Some(NoTables) && r.tables == []
    ensures AppRead(doc) && doc.tables.Some? ==>
              r.tables == ReadTables(doc.tables.value).mods && r.error == ReadTables(doc.tables.value).error
  {
    match SelectNodeToTime(Some(doc.values), "RequestTime")
    case Err(e) => DtmInfo(ZeroTime, ZeroTime, NoModification, [], Some(TimeFailed(e)))
    case Ok(received) =>
      match SelectNodeToTime(Some(doc.values), "RequestNextAllowedTime")
      case Err(e) => DtmInfo(received, ZeroTime, NoModification, [], Some(TimeFailed(e)))
      case Ok(next) =>
        if doc.app.None? then DtmInfo(received, next, NoModification, [], Some(NoApp))
        else
          var app := doc.app.value;
          var id := FirstId(app.attrs);
          if id == "" then DtmInfo(received, next, NoModification, [], Some(MissingAppId))
          else match SelectNodeToTime(Some(app.values), "lastModifiedTime")
            case Err(e) => DtmInfo(received, next, SchemaModification(id, ZeroTime, ZeroTime), [], Some(TimeFailed(e)))
            case Ok(schema) =>
              match SelectNodeToTime(Some(app.values), "lastRecModTime")
              case Err(e) => DtmInfo(received, next, SchemaModification(id, schema, ZeroTime), [], Some(TimeFailed(e)))
              case Ok(rec) =>
                var appMod := SchemaModification(id, schema, rec);
                if doc.tables.None? then DtmInfo(received, next, appMod, [], Some(NoTables))
                else
                  var read := ReadTables(doc.tables.value);
                  ReadTablesPrefix(doc.tables.value);
                  DtmInfo(received, next, appMod, read.mods, read.error)
  }

  /** A table without an id stops the loop there: the tables before it are returned, none after. */
  lemma MissingTableIdStops(doc: DtmDoc, k: nat)
    requires doc.tables.Some? && k < |doc.tables.value|
    requires forall i :: 0 <= i < k ==> ReadTable(doc.tables.value[i]).Ok?
    requires FirstId(doc.tables.value[k].attrs) == ""
    requires Complete(DtmDoc(doc.values, doc.app, Some([])))
    ensures GetAppDtmInfo(doc).error == Some(MissingTableId)
    ensures |GetAppDtmInfo(doc).tables| == k
  {
    var read := ReadTables(doc.tables.value);
    ReadTablesPrefix(doc.tables.value);
    assert |read.mods| == k;
  }
}
