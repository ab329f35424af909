/** The in-memory fallback of `MongoManager` (api/mongo_client.py): three
    insertion-ordered dictionaries of JSON documents, updated in place when
    the manager is not connected to a database. */
module MongoStore {

  import opened Log

  /** A JSON-like document value; `datetime` and `ObjectId` are the two
      non-JSON values the driver hands back. */
  datatype Json =
    | JNull
    | JBool(b: bool)
    | JInt(i: int)
    | JStr(s: string)
    | JDateTime(date: string, clock: string)
    | JObjectId(hex: string)
    | JList(items: seq<Json>)
    | JObject(members: map<string, Json>)

  type Doc = map<string, Json>

  /** `doc.get(key)`: a missing key reads as None. */
  function Get(doc: Doc, key: string): Json {
    if key in doc then doc[key] else JNull
  }

  /** A Python `Optional[str]` argument stored as it is. */
  function OptStr(o: Option<string>): Json {
    if o.Some? then JStr(o.value) else JNull
  }

  // ---------------------------------------------------------------- tables

  /** One `key: record` item of an insertion-ordered dict. */
  datatype Entry = Entry(key: string, doc: Doc)

  /** The keys of a dict. */
  function Keys(t: seq<Entry>): (r: set<string>)
    ensures forall e :: e in t ==> e.key in r
  {
    if t == [] then {} else {t[0].key} + Keys(t[1..])
  }

  /** The head and tail of a dict with one more item in front. */
  lemma ConsParts(e: Entry, t: seq<Entry>)
    ensures ([e] + t)[0] == e && ([e] + t)[1..] == t
  {
  }

  /** A dict never holds a key twice. */
  ghost predicate Distinct(t: seq<Entry>) {
    t == [] || (t[0].key !in Keys(t[1..]) && Distinct(t[1..]))
  }

  predicate HasKey(t: seq<Entry>, k: string) {
    k in Keys(t)
  }

  /** `d.get(k)` */
  function Lookup(t: seq<Entry>, k: string): (r: Option<Doc>)
    ensures r.None? <==> !HasKey(t, k)
    ensures r.Some? ==> Entry(k, r.value) in t
  {
    if t == [] then None
    else if t[0].key == k then Some(t[0].doc)
    else Lookup(t[1..], k)
  }

  /** `d[k] = doc`: a present key keeps its place, a new key goes last. */
  function Put(t: seq<Entry>, k: string, doc: Doc): (r: seq<Entry>)
    ensures Keys(r) == Keys(t) + {k}
  {
    if t == [] then [Entry(k, doc)]
    else if t[0].key == k then [Entry(k, doc)] + t[1..]
    else [t[0]] + Put(t[1..], k, doc)
  }

  /** `del d[k]` */
  function Remove(t: seq<Entry>, k: string): (r: seq<Entry>)
    ensures |r| <= |t| && Keys(r) <= Keys(t)
  {
    if t == [] then []
    else if t[0].key == k then Remove(t[1..], k)
    else [t[0]] + Remove(t[1..], k)
  }

  /** `{k: v for k, v in d.items() if v.get(field) != value}` */
  function Detach(t: seq<Entry>, field: string, value: Json): (r: seq<Entry>)
    ensures |r| <= |t| && Keys(r) <= Keys(t)
  {
    if t == [] then []
    else if Get(t[0].doc, field) == value then Detach(t[1..], field, value)
    else [t[0]] + Detach(t[1..], field, value)
  }

  /** `[v for v in d.values() if v.get(field) == value]` */
  function Matching(t: seq<Entry>, field: string, value: Json): (r: seq<Doc>)
    ensures |r| <= |t|
  {
    if t == [] then []
    else if Get(t[0].doc, field) == value then [t[0].doc] + Matching(t[1..], field, value)
    else Matching(t[1..], field, value)
  }

  /** `list(d.values())` */
  function Values(t: seq<Entry>): (r: seq<Doc>)
    ensures |r| == |t| && forall i :: 0 <= i < |t| ==> r[i] == t[i].doc
  {
    seq(|t|, i requires 0 <= i < |t| => t[i].doc)
  }

  /** Storing under a key reads back what was stored and leaves every other key as it was. */
  lemma {:induction false} PutLookup(t: seq<Entry>, k: string, doc: Doc, k': string)
    ensures Lookup(Put(t, k, doc), k') == if k' == k then Some(doc) else Lookup(t, k')
  {
    if t != [] && t[0].key != k {
      PutLookup(t[1..], k, doc, k');
      ConsParts(t[0], Put(t[1..], k, doc));
    }
  }

  /** Storing keeps the keys distinct; a new key goes after all the others. */
  lemma {:induction false} PutDistinct(t: seq<Entry>, k: string, doc: Doc)
    requires Distinct(t)
    ensures Distinct(Put(t, k, doc))
    ensures !HasKey(t, k) ==> Put(t, k, doc) == t + [Entry(k, doc)]
  {
    if t != [] {
      if t[0].key == k {
        ConsParts(Entry(k, doc), t[1..]);
      } else {
        PutDistinct(t[1..], k, doc);
        ConsParts(t[0], Put(t[1..], k, doc));
      }
    }
  }

  /** Deleting a key removes exactly that key and keeps the others as they were. */
  lemma {:induction false} RemoveLookup(t: seq<Entry>, k: string, k': string)
    requires Distinct(t)
    ensures Lookup(Remove(t, k), k') == if k' == k then None else Lookup(t, k')
  {
    if t != [] {
      RemoveLookup(t[1..], k, k');
      if t[0].key != k {
        ConsParts(t[0], Remove(t[1..], k));
      } else {
        RemoveAbsent(t[1..], k);
      }
    }
  }

  /** Deleting keeps the keys distinct, and deleting an absent key changes nothing. */
  lemma {:induction false} RemoveDistinct(t: seq<Entry>, k: string)
    requires Distinct(t)
    ensures Distinct(Remove(t, k)) && k !in Keys(Remove(t, k))
  {
    if t != [] {
      RemoveDistinct(t[1..], k);
      if t[0].key != k {
        ConsParts(t[0], Remove(t[1..], k));
      }
    }
  }

  lemma {:induction false} RemoveAbsent(t: seq<Entry>, k: string)
    requires !HasKey(t, k)
    ensures Remove(t, k) == t
  {
    if t != [] {
      RemoveAbsent(t[1..], k);
    }
  }

  /** The cascade filter keeps exactly the records that do not carry the
      value, and keeps the keys distinct; DetachOrder states their order. */
  lemma {:induction false} DetachMeaning(t: seq<Entry>, field: string, value: Json)
    requires Distinct(t)
    ensures Distinct(Detach(t, field, value))
    ensures forall e :: e in Detach(t, field, value) <==> e in t && Get(e.doc, field) != value
  {
    if t != [] {
      DetachMeaning(t[1..], field, value);
      if Get(t[0].doc, field) != value {
        ConsParts(t[0], Detach(t[1..], field, value));
      }
      forall e | e in t && Get(e.doc, field) != value
        ensures e in Detach(t, field, value)
      {
        if e != t[0] {
          assert e in t[1..];
        }
      }
    }
  }

  /** The filtered listing holds exactly the records carrying the value;
      MatchingOrder states their order. */
  lemma {:induction false} MatchingMeaning(t: seq<Entry>, field: string, value: Json)
    ensures forall d :: d in Matching(t, field, value) <==> exists e :: e in t && e.doc == d && Get(d, field) == value
  {
    if t != [] {
      MatchingMeaning(t[1..], field, value);
      forall d | exists e :: e in t && e.doc == d && Get(d, field) == value
        ensures d in Matching(t, field, value)
      {
        var e :| e in t && e.doc == d && Get(d, field) == value;
        if e != t[0] {
          assert e in t[1..];
        }
      }
    }
  }

  lemma {:induction false} MatchingAppend(a: seq<Entry>, b: seq<Entry>, field: string, value: Json)
    ensures Matching(a + b, field, value) == Matching(a, field, value) + Matching(b, field, value)
  {
    if a == [] {
      assert a + b == b;
    } else {
      assert (a + b)[0] == a[0] && (a + b)[1..] == a[1..] + b;
      MatchingAppend(a[1..], b, field, value);
    }
  }

  /** The listing keeps insertion order: a matching record at index `i` is
      listed at the position equal to the number of matching records before
      it, and that number grows past every later index. */
  lemma MatchingOrder(t: seq<Entry>, field: string, value: Json, i: nat, j: nat)
    requires i < j <= |t| && Get(t[i].doc, field) == value
    ensures |Matching(t[..i], field, value)| < |Matching(t[..j], field, value)|
    ensures |Matching(t[..i], field, value)| < |Matching(t, field, value)|
    ensures Matching(t, field, value)[|Matching(t[..i], field, value)|] == t[i].doc
  {
    assert t[..j] == t[..i] + t[i..j];
    assert t == t[..i] + t[i..];
    MatchingAppend(t[..i], t[i..j], field, value);
    MatchingAppend(t[..i], t[i..], field, value);
    assert t[i..j][0] == t[i] && t[i..][0] == t[i];
  }

  lemma {:induction false} DetachAppend(a: seq<Entry>, b: seq<Entry>, field: string, value: Json)
    ensures Detach(a + b, field, value) == Detach(a, field, value) + Detach(b, field, value)
  {
    if a == [] {
      assert a + b == b;
    } else {
      assert (a + b)[0] == a[0] && (a + b)[1..] == a[1..] + b;
      DetachAppend(a[1..], b, field, value);
    }
  }

  /** The cascade keeps the surviving records in their order: a kept record
      at index `i` lands at the position equal to the number of kept records
      before it, and that number grows past every later index. */
  lemma DetachOrder(t: seq<Entry>, field: string, value: Json, i: nat, j: nat)
    requires i < j <= |t| && Get(t[i].doc, field) != value
    ensures |Detach(t[..i], field, value)| < |Detach(t[..j], field, value)|
    ensures |Detach(t[..i], field, value)| < |Detach(t, field, value)|
    ensures Detach(t, field, value)[|Detach(t[..i], field, value)|] == t[i]
  {
    assert t[..j] == t[..i] + t[i..j];
    assert t == t[..i] + t[i..];
    DetachAppend(t[..i], t[i..j], field, value);
    DetachAppend(t[..i], t[i..], field, value);
    assert t[i..j][0] == t[i] && t[i..][0] == t[i];
  }

  /** A table none of whose records has the field lists nothing for a string value. */
  lemma {:induction false} MatchingAbsent(t: seq<Entry>, field: string, value: string)
    requires forall i :: 0 <= i < |t| ==> field !in t[i].doc
    ensures Matching(t, field, JStr(value)) == []
  {
    if t != [] {
      assert forall i :: 0 < i < |t| ==> t[i] == t[1..][i - 1];
      MatchingAbsent(t[1..], field, value);
    }
  }

  // --------------------------------------------------------------- records

  /** The in-memory profile record of `create_profile`. */
  function ProfileRecord(pid: string, name: string, description: Option<string>, droneType: Option<string>,
                         createdAt: string, updatedAt: string): Doc
  {
    map["id" := JStr(pid), "name" := JStr(name),
        "description" := JStr(if description.Some? then description.value else ""),
        "drone_type" := OptStr(droneType), "created_at" := JStr(createdAt), "updated_at" := JStr(updatedAt)]
  }

  /** The in-memory analysis record of `save_analysis_result`; the file bytes are not part of it. */
  function AnalysisRecord(aid: string, profileId: string, filename: string, fileSize: int, originalSize: int,
                          analysisData: Json, token: Option<string>, createdAt: string): Doc
  {
    map["id" := JStr(aid), "profile_id" := JStr(profileId), "filename" := JStr(filename),
        "file_size" := JInt(fileSize), "original_size" := JInt(originalSize), "analysis_data" := analysisData,
        "token" := OptStr(token), "created_at" := JStr(createdAt)]
  }

  /** The in-memory saved-graph record of `save_graph_to_profile`. */
  function GraphRecord(gid: string, profileId: string, name: string, description: Option<string>, graphType: string,
                       messageType: Option<string>, fieldName: Option<string>, token: Option<string>,
                       seriesData: Json, flightModes: Json, createdAt: string): Doc
  {
    map["id" := JStr(gid), "profile_id" := JStr(profileId), "name" := JStr(name),
        "description" := OptStr(description), "graph_type" := JStr(graphType),
        "message_type" := OptStr(messageType), "field_name" := OptStr(fieldName), "token" := OptStr(token),
        "series_data" := seriesData, "flight_modes" := flightModes, "created_at" := JStr(createdAt)]
  }

  /** Every record a memory-mode save writes carries its id under `id`, a
      saved graph never has an `analysis_id`, and an analysis record never
      holds the file bytes. */
  lemma RecordShapes(id: string, profileId: string, name: string, description: Option<string>, graphType: string,
                     messageType: Option<string>, fieldName: Option<string>, token: Option<string>,
                     seriesData: Json, flightModes: Json, createdAt: string, updatedAt: string,
                     filename: string, fileSize: int, originalSize: int, analysisData: Json)
    ensures Get(ProfileRecord(id, name, description, None, createdAt, updatedAt), "id") == JStr(id)
    ensures Get(AnalysisRecord(id, profileId, filename, fileSize, originalSize, analysisData, token, createdAt), "id") == JStr(id)
    ensures "file_content" !in AnalysisRecord(id, profileId, filename, fileSize, originalSize, analysisData, token, createdAt)
    ensures Get(GraphRecord(id, profileId, name, description, graphType, messageType, fieldName, token,
                            seriesData, flightModes, createdAt), "id") == JStr(id)
    ensures "analysis_id" !in GraphRecord(id, profileId, name, description, graphType, messageType, fieldName, token,
                                          seriesData, flightModes, createdAt)
  {
  }

  // ------------------------------------------------------------ serialize

  /** Decimal text of an integer, as `str()` writes it. */
  function IntText(i: int): (r: string)
    ensures r != []
    decreases if i < 0 then 1 - i else i
  {
    if i < 0 then "-" + IntText(-i)
    else if i < 10 then [('0' as int + i) as char]
    else IntText(i / 10) + [('0' as int + i % 10) as char]
  }

  /** `str(v)` for the values an `_id` takes. */
  function Str(v: Json): string {
    match v
    case JNull => "None"
    case JBool(b) => if b then "True" else "False"
    case JInt(i) => IntText(i)
    case JStr(s) => s
    case JDateTime(date, clock) => date + " " + clock
    case JObjectId(hex) => hex
    case JList(_) => ""
    case JObject(_) => ""
  }

  /** A top-level datetime becomes its `isoformat()` text; other values stay. */
  function Iso(v: Json): Json {
    if v.JDateTime? then JStr(v.date + "T" + v.clock) else v
  }

  /** `result['id'] = str(result.pop('_id'))` when `_id` is present. */
  function Renamed(doc: Doc): Doc {
    if "_id" in doc then (doc - {"_id"})["id" := JStr(Str(doc["_id"]))] else doc
  }

  /** What `_serialize` returns. */
  function Serialized(doc: Option<Doc>): Option<Doc> {
    if doc.None? || doc.value == map[] then None
    else
      var d := Renamed(doc.value);
      Some(map k | k in d :: Iso(d[k]))
  }

  /** `_serialize`: None for a missing or empty document; otherwise `_id`
      becomes the string `id`, top-level datetimes become ISO text, and every
      other key keeps its value. */
  lemma SerializedMeaning(doc: Option<Doc>)
    ensures Serialized(doc).None? <==> doc.None? || doc.value == map[]
    ensures Serialized(doc).Some? ==>
              var r := Serialized(doc).value;
              "_id" !in r
              && r.Keys == (if "_id" in doc.value then doc.value.Keys - {"_id"} + {"id"} else doc.value.Keys)
              && ("_id" in doc.value ==> r["id"] == JStr(Str(doc.value["_id"])))
              && (forall k :: k in r ==> !r[k].JDateTime?)
              && (forall k :: k in doc.value && k != "_id" && (k != "id" || "_id" !in doc.value) ==>
                    r[k] == Iso(doc.value[k]) && (!doc.value[k].JDateTime? ==> r[k] == doc.value[k]))
  {
    if doc.Some? && doc.value != map[] {
      var d := doc.value;
      if "_id" in d {
        assert Renamed(d).Keys == d.Keys - {"_id"} + {"id"};
      }
    }
  }

  /** Serializing a serialized document changes nothing. */
  lemma SerializedIdempotent(doc: Option<Doc>)
    ensures Serialized(Serialized(doc)) == Serialized(doc)
  {
    if doc.Some? && doc.value != map[] {
      var d := Renamed(doc.value);
      var r := Serialized(doc).value;
      assert d.Keys != {} by {
        var k :| k in doc.value;
        if k == "_id" {
          assert "id" in d;
        } else {
          assert k in d;
        }
      }
      assert r.Keys == d.Keys;
      assert r != map[];
      assert "_id" !in r;
      assert Renamed(r) == r;
      assert (map k | k in r :: Iso(r[k])) == r;
    }
  }

  /** `_serialize`. */
  method Serialize(doc: Option<Doc>) returns (r: Option<Doc>)
    ensures r == Serialized(doc)
  {
    if doc.None? || doc.value == map[] {
      return None;
    }
    var result := doc.value;
    if "_id" in result {
      var id := result["_id"];
      result := (result - {"_id"})["id" := JStr(Str(id))];
    }
    result := IsoFormatAll(result);
    r := Some(result);
  }

  /** The loop of `_serialize` over `list(result.items())`. */
  method IsoFormatAll(d: Doc) returns (result: Doc)
    ensures result == map k | k in d :: Iso(d[k])
  {
    result := d;
    var todo := d.Keys;
    while todo != {}
      invariant todo <= d.Keys && result.Keys == d.Keys
      invariant forall k :: k in result ==> result[k] == if k in todo then d[k] else Iso(d[k])
      decreases |todo|
    {
      var key :| key in todo;
      var val := result[key];
      if val.JDateTime? {
        result := result[key := JStr(val.date + "T" + val.clock)];
      }
      todo := todo - {key};
    }
    assert result == map k | k in d :: Iso(d[k]);
  }

  // ----------------------------------------------------------------- store

  class MemoryStore {
    /** `_mem_profiles`, `_mem_saved_graphs`, `_mem_analysis_results`. */
    var profiles: seq<Entry>
    var savedGraphs: seq<Entry>
    var analysisResults: seq<Entry>

    ghost predicate Valid()
      reads this
    {
      Distinct(profiles) && Distinct(savedGraphs) && Distinct(analysisResults)
    }

    /** The three dicts `_load_from_files` read (empty for a missing or unreadable file). */
    constructor(loadedProfiles: seq<Entry>, loadedGraphs: seq<Entry>, loadedResults: seq<Entry>)
      requires Distinct(loadedProfiles) && Distinct(loadedGraphs) && Distinct(loadedResults)
      ensures Valid()
      ensures profiles == loadedProfiles && savedGraphs == loadedGraphs && analysisResults == loadedResults
    {
      profiles := loadedProfiles;
      savedGraphs := loadedGraphs;
      analysisResults := loadedResults;
    }

    /** `create_profile`; `pid` is the fresh uuid4 and the two times are
        the two `_now_iso()` calls. `user_id` is not stored in memory mode. */
    method CreateProfile(userId: Option<string>, name: string, description: Option<string>, droneType: Option<string>,
                         pid: string, createdAt: string, updatedAt: string) returns (r: Option<Doc>)
      requires Valid()
      modifies this
      ensures Valid()
      ensures name == [] ==> r.None? && unchanged(this)
      ensures name != [] ==> r == Some(ProfileRecord(pid, name, description, droneType, createdAt, updatedAt))
                             && profiles == Put(old(profiles), pid, r.value)
                             && Lookup(profiles, pid) == r
                             && savedGraphs == old(savedGraphs) && analysisResults == old(analysisResults)
    {
      if name == [] {
        return None;
      }
      var record := ProfileRecord(pid, name, description, droneType, createdAt, updatedAt);
      PutLookup(profiles, pid, record, pid);
      PutDistinct(profiles, pid, record);
      profiles := Put(profiles, pid, record);
      r := Some(record);
    }

    /** `get_user_profiles`: in memory mode every profile, whoever asks. */
    function GetUserProfiles(userId: string): (r: seq<Doc>)
      reads this
      ensures |r| == |profiles| && forall i :: 0 <= i < |r| ==> r[i] == profiles[i].doc
    {
      Values(profiles)
    }

    /** `get_all_profiles` */
    function GetAllProfiles(): (r: seq<Doc>)
      reads this
      ensures forall u :: r == GetUserProfiles(u)
    {
      Values(profiles)
    }

    /** `get_profile` */
    function GetProfile(profileId: string): (r: Option<Doc>)
      reads this
      ensures r.None? <==> !HasKey(profiles, profileId)
      ensures r.Some? ==> Entry(profileId, r.value) in profiles
    {
      Lookup(profiles, profileId)
    }

    /** `delete_profile`: removes the profile and, by cascade, every saved
        graph and analysis whose `profile_id` is that id. */
    method DeleteProfile(profileId: string) returns (deleted: bool)
      requires Valid()
      modifies this
      ensures Valid()
      ensures deleted <==> old(HasKey(profiles, profileId))
      ensures !deleted ==> unchanged(this)
      ensures deleted ==> profiles == Remove(old(profiles), profileId) && !HasKey(profiles, profileId)
                          && savedGraphs == Detach(old(savedGraphs), "profile_id", JStr(profileId))
                          && analysisResults == Detach(old(analysisResults), "profile_id", JStr(profileId))
    {
      if !HasKey(profiles, profileId) {
        return false;
      }
      RemoveDistinct(profiles, profileId);
      DetachMeaning(savedGraphs, "profile_id", JStr(profileId));
      DetachMeaning(analysisResults, "profile_id", JStr(profileId));
      profiles := Remove(profiles, profileId);
      savedGraphs := Detach(savedGraphs, "profile_id", JStr(profileId));
      analysisResults := Detach(analysisResults, "profile_id", JStr(profileId));
      deleted := true;
    }

    /** `save_analysis_result`: always stored in memory mode; `file_content` is dropped. */
    method SaveAnalysisResult(profileId: string, filename: string, fileSize: int, originalSize: int,
                              analysisData: Json, token: Option<string>, fileContent: Option<seq<bv8>>,
                              aid: string, createdAt: string) returns (r: Option<Doc>)
      requires Valid()
      modifies this
      ensures Valid()
      ensures r == Some(AnalysisRecord(aid, profileId, filename, fileSize, originalSize, analysisData, token, createdAt))
      ensures analysisResults == Put(old(analysisResults), aid, r.value) && Lookup(analysisResults, aid) == r
      ensures profiles == old(profiles) && savedGraphs == old(savedGraphs)
    {
      var record := AnalysisRecord(aid, profileId, filename, fileSize, originalSize, analysisData, token, createdAt);
      PutLookup(analysisResults, aid, record, aid);
      PutDistinct(analysisResults, aid, record);
      analysisResults := Put(analysisResults, aid, record);
      r := Some(record);
    }

    /** `get_analysis_by_token`: the first record, in insertion order, whose `token` equals it. */
    method GetAnalysisByToken(token: Option<string>) returns (r: Option<Doc>)
      ensures r.None? <==> forall i :: 0 <= i < |analysisResults| ==> Get(analysisResults[i].doc, "token") != OptStr(token)
      ensures r.Some? ==> exists i :: 0 <= i < |analysisResults| && Get(analysisResults[i].doc, "token") == OptStr(token)
                            && r.value == analysisResults[i].doc
                            && forall j :: 0 <= j < i ==> Get(analysisResults[j].doc, "token") != OptStr(token)
    {
      var i := 0;
      while i < |analysisResults|
        invariant 0 <= i <= |analysisResults|
        invariant forall j :: 0 <= j < i ==> Get(analysisResults[j].doc, "token") != OptStr(token)
      {
        var analysis := analysisResults[i].doc;
        if Get(analysis, "token") == OptStr(token) {
          return Some(analysis);
        }
        i := i + 1;
      }
      r := None;
    }

    /** `get_analysis_results` */
    function GetAnalysisResults(profileId: string): (r: seq<Doc>)
      reads this
      ensures forall d :: d in r <==> exists e :: e in analysisResults && e.doc == d && Get(d, "profile_id") == JStr(profileId)
    {
      MatchingMeaning(analysisResults, "profile_id", JStr(profileId));
      Matching(analysisResults, "profile_id", JStr(profileId))
    }

    /** `save_graph_to_profile`; an empty name stores nothing. */
    method SaveGraphToProfile(profileId: string, name: string, description: Option<string>, graphType: string,
                              messageType: Option<string>, fieldName: Option<string>, token: Option<string>,
                              seriesData: Json, flightModes: Json, gid: string, createdAt: string)
      returns (r: Option<Doc>)
      requires Valid()
      modifies this
      ensures Valid()
      ensures name == [] ==> r.None? && unchanged(this)
      ensures name != [] ==> r == Some(GraphRecord(gid, profileId, name, description, graphType, messageType, fieldName,
                                                   token, seriesData, flightModes, createdAt))
                             && savedGraphs == Put(old(savedGraphs), gid, r.value)
                             && Lookup(savedGraphs, gid) == r
                             && profiles == old(profiles) && analysisResults == old(analysisResults)
    {
      if name == [] {
        return None;
      }
      var record := GraphRecord(gid, profileId, name, description, graphType, messageType, fieldName, token,
                                seriesData, flightModes, createdAt);
      PutLookup(savedGraphs, gid, record, gid);
      PutDistinct(savedGraphs, gid, record);
      savedGraphs := Put(savedGraphs, gid, record);
      r := Some(record);
    }

    /** `get_profile_saved_graphs` */
    function GetProfileSavedGraphs(profileId: string): (r: seq<Doc>)
      reads this
      ensures forall d :: d in r <==> exists e :: e in savedGraphs && e.doc == d && Get(d, "profile_id") == JStr(profileId)
    {
      MatchingMeaning(savedGraphs, "profile_id", JStr(profileId));
      Matching(savedGraphs, "profile_id", JStr(profileId))
    }

    /** `delete_saved_graph` */
    method DeleteSavedGraph(graphId: string) returns (deleted: bool)
      requires Valid()
      modifies this
      ensures Valid()
      ensures deleted <==> old(HasKey(savedGraphs, graphId))
      ensures !deleted ==> unchanged(this)
      ensures deleted ==> savedGraphs == Remove(old(savedGraphs), graphId) && !HasKey(savedGraphs, graphId)
                          && profiles == old(profiles) && analysisResults == old(analysisResults)
    {
      if !HasKey(savedGraphs, graphId) {
        return false;
      }
      RemoveDistinct(savedGraphs, graphId);
      savedGraphs := Remove(savedGraphs, graphId);
      deleted := true;
    }

    /** `get_graphs`: saved graphs whose `analysis_id` is the given id. */
    function GetGraphs(analysisId: string): (r: seq<Doc>)
      reads this
      ensures forall d :: d in r <==> exists e :: e in savedGraphs && e.doc == d && Get(d, "analysis_id") == JStr(analysisId)
    {
      MatchingMeaning(savedGraphs, "analysis_id", JStr(analysisId));
      Matching(savedGraphs, "analysis_id", JStr(analysisId))
    }
  }

  /** After the cascade, listing the deleted profile's saved graphs or
      analyses returns nothing. */
  lemma {:induction false} DetachThenMatching(t: seq<Entry>, field: string, value: Json)
    ensures Matching(Detach(t, field, value), field, value) == []
  {
    if t != [] {
      DetachThenMatching(t[1..], field, value);
      if Get(t[0].doc, field) != value {
        ConsParts(t[0], Detach(t[1..], field, value));
      }
    }
  }
}
