/** config.json as main.js reads and writes it (loadConfig, saveConfig), held as a value: the
    file is absent, unreadable (missing permissions or not parseable), or holds a document. */
module Config {
  import opened Common
  import opened History

  /** A top-level value of the document, as far as this model tells values apart; nested
      objects and arrays other than the call history are kept as their JSON text. */
  datatype Value =
    | Null
    | Bool(b: bool)
    | Num(n: int)
    | Str(s: string)
    | Calls(records: seq<CallRecord>)
    | Structured(json: string)

  type Document = map<string, Value>

  datatype ConfigFile = Absent | Unreadable | Stored(doc: Document)

  const HistoryKey: string := "callHistoryStorage"

  /** JavaScript truthiness; objects and arrays (even empty ones) are truthy. */
  predicate Truthy(v: Value)
  {
    match v
    case Null => false
    case Bool(b) => b
    case Num(n) => n != 0
    case Str(s) => s != ""
    case Calls(_) => true
    case Structured(_) => true
  }

  /** The document written when config.json is missing, and returned when it cannot be read. */
  function InitialDocument(): (d: Document)
    ensures HistoryKey in d && d[HistoryKey] == Calls([])
  {
    map[
      "masterData" := Structured("[]"),
      "masterSettings" := Structured("{}"),
      "alertSettings" := Structured("{\"displayFormat\":\"K{room}B{bed}\",\"customFormat\":\"\",\"alertDuration\":30,\"soundEnabled\":false}"),
      HistoryKey := Calls([])]
  }

  /** The initial document holds exactly the four top-level keys main.js writes. */
  lemma InitialDocumentKeys()
    ensures InitialDocument().Keys == {"masterData", "masterSettings", "alertSettings", HistoryKey}
    ensures InitialDocument()["alertSettings"].Structured?
  {
  }

  /** `{...existing, ...data}`: every key of either, the new value winning. */
  function ShallowMerge(existing: Document, data: Document): (r: Document)
    ensures r.Keys == existing.Keys + data.Keys
    ensures forall k :: k in data ==> r[k] == data[k]
    ensures forall k :: k in existing && k !in data ==> r[k] == existing[k]
  {
    existing + data
  }

  /** loadConfig's repair of a parsed document: a missing or falsy call history becomes `[]`. */
  function WithHistoryDefault(parsed: Document): (r: Document)
    ensures r.Keys == parsed.Keys + {HistoryKey}
    ensures Truthy(r[HistoryKey])
    ensures forall k :: k in parsed && k != HistoryKey ==> r[k] == parsed[k]
    ensures HistoryKey in parsed && Truthy(parsed[HistoryKey]) ==> r == parsed
    ensures !(HistoryKey in parsed && Truthy(parsed[HistoryKey])) ==> r[HistoryKey] == Calls([])
  {
    if HistoryKey in parsed && Truthy(parsed[HistoryKey]) then parsed
    else parsed[HistoryKey := Calls([])]
  }

  datatype Loaded = Loaded(doc: Document, file: ConfigFile)

  /** loadConfig: the document it returns and the file as it leaves it (it writes the
      initial document when there is no file). */
  function LoadConfig(file: ConfigFile): (r: Loaded)
    ensures HistoryKey in r.doc && Truthy(r.doc[HistoryKey])
    ensures file.Absent? ==> r.file == Stored(InitialDocument()) && r.doc == InitialDocument()
    ensures file.Unreadable? ==> r.file == file && r.doc == InitialDocument()
    ensures file.Stored? ==> r.file == file
    ensures file.Stored? ==> forall k :: k in file.doc && k != HistoryKey ==> k in r.doc && r.doc[k] == file.doc[k]
    ensures file.Stored? ==> r.doc.Keys == file.doc.Keys + {HistoryKey}
    ensures file.Stored? && HistoryKey in file.doc && Truthy(file.doc[HistoryKey]) ==> r.doc == file.doc
  {
    match file
    case Absent => Loaded(InitialDocument(), Stored(InitialDocument()))
    case Unreadable => Loaded(InitialDocument(), file)
    case Stored(d) => Loaded(WithHistoryDefault(d), file)
  }

  datatype Saved = Saved(ok: bool, file: ConfigFile)

  /** saveConfig: merge `data` over the document on file (the initial document when there is
      none); an unreadable file is left alone and the save reports failure. */
  function SaveConfig(file: ConfigFile, data: Document): (r: Saved)
    ensures r.ok <==> !file.Unreadable?
    ensures !r.ok ==> r.file == file
    ensures r.ok ==> r.file.Stored? && forall k :: k in data ==> k in r.file.doc && r.file.doc[k] == data[k]
    ensures r.ok && file.Stored? ==>
              forall k :: k in file.doc && k !in data ==> k in r.file.doc && r.file.doc[k] == file.doc[k]
    ensures r.ok && file.Stored? ==> r.file.doc.Keys == file.doc.Keys + data.Keys
    ensures r.ok && file.Absent? ==> r.file == Stored(ShallowMerge(InitialDocument(), data))
  {
    if file.Unreadable? then Saved(false, file)
    else
      var existing := if file.Stored? then file.doc else InitialDocument();
      var merged := ShallowMerge(existing, data);
      Saved(true, Stored(merged))
  }

  /** Saving over a missing file writes the initial document's four keys and the saved ones,
      the saved values winning. */
  lemma SaveOverAbsent(data: Document)
    ensures SaveConfig(Absent, data).ok
    ensures SaveConfig(Absent, data).file.doc.Keys
         == {"masterData", "masterSettings", "alertSettings", HistoryKey} + data.Keys
    ensures forall k :: k in data ==> SaveConfig(Absent, data).file.doc[k] == data[k]
  {
    InitialDocumentKeys();
  }

  /** After a successful save, loading gives back every key that was saved with its value;
      only a falsy call history is replaced by `[]`. */
  lemma SaveThenLoad(file: ConfigFile, data: Document)
    requires SaveConfig(file, data).ok
    ensures forall k :: k in data && k != HistoryKey ==>
              LoadConfig(SaveConfig(file, data).file).doc[k] == data[k]
    ensures HistoryKey in data && Truthy(data[HistoryKey]) ==>
              LoadConfig(SaveConfig(file, data).file).doc[HistoryKey] == data[HistoryKey]
  {
  }

  /** The file after saveCompletedCallsToPersistentStorage: load, merge the completed shared
      calls into the stored history, save. A stored history that is not an array makes the
      handler throw (the error is caught), and then only loadConfig's effect remains. */
  function WithCompletedCalls(file: ConfigFile, shared: seq<CallRecord>, now: int): ConfigFile
  {
    var loaded := LoadConfig(file);
    match loaded.doc[HistoryKey]
    case Calls(history) =>
      SaveConfig(loaded.file, loaded.doc[HistoryKey := Calls(MergeStored(history, shared, now))]).file
    case _ => loaded.file
  }

  /** Writing a new call history over a loaded document stores exactly that history and
      keeps every other key of the document. */
  lemma SaveHistoryOverLoaded(file: ConfigFile, records: seq<CallRecord>)
    requires !file.Unreadable?
    ensures var loaded := LoadConfig(file);
            var after := SaveConfig(loaded.file, loaded.doc[HistoryKey := Calls(records)]);
            && after.ok && after.file.Stored?
            && after.file.doc == loaded.doc[HistoryKey := Calls(records)]
  {
    var loaded := LoadConfig(file);
    var data := loaded.doc[HistoryKey := Calls(records)];
    assert loaded.file.Stored?;
    var existing := loaded.file.doc;
    assert existing.Keys <= data.Keys by {
      if file.Stored? {
        assert loaded.doc == WithHistoryDefault(file.doc);
      }
    }
    assert ShallowMerge(existing, data) == data;
  }

  /** The history a successful save puts on file is the merge of the completed shared calls
      into the history that was stored, and every other key is kept. */
  lemma SaveCompletedStoresMerge(file: ConfigFile, shared: seq<CallRecord>, now: int)
    requires !file.Unreadable?
    requires LoadConfig(file).doc[HistoryKey].Calls?
    ensures var loaded := LoadConfig(file);
            WithCompletedCalls(file, shared, now)
              == Stored(loaded.doc[HistoryKey := Calls(MergeStored(loaded.doc[HistoryKey].records, shared, now))])
  {
    var loaded := LoadConfig(file);
    SaveHistoryOverLoaded(file, MergeStored(loaded.doc[HistoryKey].records, shared, now));
  }

  /** An unreadable config file is never overwritten by a save of the call history. */
  lemma SaveCompletedLeavesUnreadable(shared: seq<CallRecord>, now: int)
    ensures WithCompletedCalls(Unreadable, shared, now) == Unreadable
  {
  }

  /** A stored history that the merge leaves as it is is written back unchanged. */
  lemma ResaveFixedHistory(d: Document, shared: seq<CallRecord>, now: int)
    requires HistoryKey in d && d[HistoryKey].Calls?
    requires MergeStored(d[HistoryKey].records, shared, now) == d[HistoryKey].records
    ensures WithCompletedCalls(Stored(d), shared, now) == Stored(d)
  {
    assert LoadConfig(Stored(d)).doc == d;
    SaveCompletedStoresMerge(Stored(d), shared, now);
    assert d[HistoryKey := d[HistoryKey]] == d;
  }

  /** While the cap is not reached, saving the same shared history twice writes the same file
      as saving it once. */
  lemma SaveCompletedTwice(file: ConfigFile, shared: seq<CallRecord>, now: int, later: int)
    requires LoadConfig(file).doc[HistoryKey].Calls?
    requires |AppendUnmatched(LoadConfig(file).doc[HistoryKey].records, CompletedCalls(shared), now)| <= MaxStored
    ensures WithCompletedCalls(WithCompletedCalls(file, shared, now), shared, later)
         == WithCompletedCalls(file, shared, now)
  {
    if !file.Unreadable? {
      var loaded := LoadConfig(file);
      var merged := MergeStored(loaded.doc[HistoryKey].records, shared, now);
      SaveCompletedStoresMerge(file, shared, now);
      SaveTwiceIsSaveOnce(loaded.doc[HistoryKey].records, shared, now, later);
      ResaveFixedHistory(loaded.doc[HistoryKey := Calls(merged)], shared, later);
    }
  }

  /** After a history save, the first `StartupRecent` records that start-up reads are newest
      first, and none of the records left behind is newer than one that is read. */
  lemma StartupAfterSaveReadsNewest(file: ConfigFile, shared: seq<CallRecord>, now: int)
    requires !file.Unreadable?
    requires LoadConfig(file).doc[HistoryKey].Calls?
    ensures var stored := LoadConfig(WithCompletedCalls(file, shared, now)).doc[HistoryKey];
            && stored.Calls?
            && NewestFirst(Take(stored.records, StartupRecent))
            && forall i, j :: 0 <= i < |Take(stored.records, StartupRecent)| <= j < |stored.records| ==>
                 Take(stored.records, StartupRecent)[i].timestamp >= stored.records[j].timestamp
  {
    var loaded := LoadConfig(file);
    var merged := MergeStored(loaded.doc[HistoryKey].records, shared, now);
    var d := loaded.doc[HistoryKey := Calls(merged)];
    SaveCompletedStoresMerge(file, shared, now);
    assert WithCompletedCalls(file, shared, now) == Stored(d);
    assert LoadConfig(Stored(d)).doc == d;
    TakeKeepsNewest(merged, StartupRecent);
  }
}
