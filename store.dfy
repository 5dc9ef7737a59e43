/** Loading, saving and deleting the symlinks file of a directory. Each operation is a pure
    transition of the backend state, which states the conditional-write policy, and a method
    that performs it on the mock backend object. */
module SymlinksStore {
  import opened Utf8
  import opened Errors
  import opened SymlinksFile
  import opened Backend
  import Json
  import Text

  /** getSymlinksFilePath: the file name under the directory prefix, with a "/" between them
      unless the prefix already ends in one; the bare file name at the root. */
  function GetSymlinksFilePath(dirKey: string, fileName: string): (key: string)
    ensures dirKey == "" ==> key == fileName
    ensures dirKey != "" && Text.HasSuffix(dirKey, "/") ==> key == dirKey + fileName
    ensures dirKey != "" && !Text.HasSuffix(dirKey, "/") ==> key == dirKey + "/" + fileName
  {
    if dirKey == "" then fileName
    else if !Text.HasSuffix(dirKey, "/") then dirKey + "/" + fileName
    else dirKey + fileName
  }

  /** The key is always a directory part followed by the file name, where the directory part is
      empty or ends in "/" and extends the prefix by at most that one separator. */
  lemma PathShape(dirKey: string, fileName: string)
    ensures var key := GetSymlinksFilePath(dirKey, fileName);
      exists dir :: key == dir + fileName && (dir == "" || Text.HasSuffix(dir, "/"))
        && (dir == dirKey || dir == dirKey + "/")
  {
    var key := GetSymlinksFilePath(dirKey, fileName);
    if dirKey == "" {
      assert key == "" + fileName;
    } else if Text.HasSuffix(dirKey, "/") {
      assert key == dirKey + fileName;
    } else {
      var dir := dirKey + "/";
      assert Text.HasSuffix(dir, "/");
      assert key == dir + fileName;
    }
  }

  /** The resolver only adds a missing separator: a prefix that ends in two of them keeps both. */
  lemma DoubledSeparatorKept(fileName: string)
    ensures GetSymlinksFilePath("dir//", fileName) == "dir//" + fileName
  {
    assert Text.HasSuffix("dir//", "/") by {
      assert "dir//" == "dir/" + "/";
    }
  }

  /** A directory document as LoadSymlinksFile returns it, with the ETag to save it back under. */
  datatype Loaded = Loaded(data: Document, etag: string)

  /** What LoadSymlinksFile makes of the answer to its GetBlob. */
  function LoadOutcome(got: Result<GetOutput>): (r: Result<Loaded>)
    ensures got.Err? && IsNotExist(got.error) ==> r == Ok(Loaded(NewSymlinksFileData(), ""))
    ensures got.Err? && !IsNotExist(got.error) ==> r == Err(got.error)
    ensures got.Ok? && got.value.body.Err? ==> r == Err(got.value.body.error)
    ensures got.Ok? && got.value.body.Ok? ==>
      (r.Ok? <==> ParseSymlinksFile(got.value.body.value).Ok?)
    ensures got.Ok? && got.value.body.Ok? && ParseSymlinksFile(got.value.body.value).Err? ==>
      r == Err(ParseSymlinksFile(got.value.body.value).error)
    ensures got.Ok? && r.Ok? ==>
      r.value.data == ParseSymlinksFile(got.value.body.value).value
      && r.value.etag == (if got.value.etag.Some? then got.value.etag.value else "")
  {
    match got
    case Err(e) =>
      if IsNotExist(e) then Ok(Loaded(NewSymlinksFileData(), "")) else Err(e)
    case Ok(resp) =>
      var data :- resp.body;
      var parsed :- ParseSymlinksFile(data);
      Ok(Loaded(parsed, if resp.etag.Some? then resp.etag.value else ""))
  }

  /** LoadSymlinksFile as a transition: one GetBlob of the file's key. */
  function Load(st: Store, dirKey: string, fileName: string): (out: (Result<Loaded>, Store))
    ensures out.1 == st.(calls := st.calls + [GetCall(GetSymlinksFilePath(dirKey, fileName))])
  {
    var (got, st') := Get(st, GetSymlinksFilePath(dirKey, fileName));
    (LoadOutcome(got), st')
  }

  /** The precondition SaveSymlinksFile puts on its write. */
  function SaveCondition(expectedETag: string): (c: Condition)
    ensures expectedETag == "" ==> c == IfNoneMatch("*")
    ensures expectedETag != "" ==> c == IfMatch(expectedETag)
  {
    if expectedETag == "" then IfNoneMatch("*") else IfMatch(expectedETag)
  }

  /** SaveSymlinksFile as a transition: nothing for an empty new document, a delete for an
      empty known one, a conditional put otherwise. */
  function Save(st: Store, dirKey: string, fileName: string, data: Document, expectedETag: string): (out: (Result<string>, Store))
    ensures out.1.faults == st.faults
    ensures forall k :: k != GetSymlinksFilePath(dirKey, fileName) ==>
      (k in out.1.objects <==> k in st.objects) && (k in st.objects ==> out.1.objects[k] == st.objects[k])
  {
    var key := GetSymlinksFilePath(dirKey, fileName);
    if IsEmpty(data) && expectedETag == "" then
      (Ok(""), st)
    else if IsEmpty(data) then
      var (res, st') := Delete(st, key);
      (if res.Err? && !IsNotExist(res.error) then Err(res.error) else Ok(""), st')
    else
      var (res, st') := Put(st, key, Serialize(data), SaveCondition(expectedETag));
      match res
      case Ok(tag) => (Ok(if tag.Some? then tag.value else ""), st')
      case Err(e) => (Err(e), st')
  }

  /** DeleteSymlinksFile as a transition: one DeleteBlob, a missing object counts as deleted. */
  function DeleteFile(st: Store, dirKey: string, fileName: string): (out: (Result<()>, Store))
    ensures out.1 == Delete(st, GetSymlinksFilePath(dirKey, fileName)).1
    ensures var res := Delete(st, GetSymlinksFilePath(dirKey, fileName)).0;
      out.0.Err? <==> (res.Err? && !IsNotExist(res.error))
    ensures out.0.Err? ==> out.0.error == Delete(st, GetSymlinksFilePath(dirKey, fileName)).0.error
  {
    var (res, st') := Delete(st, GetSymlinksFilePath(dirKey, fileName));
    (if res.Err? && !IsNotExist(res.error) then Err(res.error) else Ok(()), st')
  }

  // ---------------------------------------------------------------------------
  // The policy

  /** An empty document without an ETag costs no backend call and creates nothing. */
  lemma SaveEmptyNew(st: Store, dirKey: string, fileName: string, data: Document)
    requires IsEmpty(data)
    ensures Save(st, dirKey, fileName, data, "") == (Ok(""), st)
  {
  }

  /** An empty document with an ETag deletes the file; a missing file counts as deleted. */
  lemma SaveEmptyDeletes(st: Store, dirKey: string, fileName: string, data: Document, etag: string)
    requires IsEmpty(data) && etag != ""
    ensures var key := GetSymlinksFilePath(dirKey, fileName);
      var (r, st') := Save(st, dirKey, fileName, data, etag);
      && st'.calls == st.calls + [DeleteCall(key)]
      && (st.faults.delete.None? ==> r == Ok("") && key !in st'.objects)
      && (r.Err? ==> st.faults.delete.Some? && r.error == st.faults.delete.value && !IsNotExist(r.error))
  {
  }

  /** A non-empty document is written once, as its serialisation, under If-None-Match "*"
      without an ETag and under If-Match with one. An injected put failure is returned as it
      is, and a failed save leaves every object as it was. */
  lemma SaveWritesConditionally(st: Store, dirKey: string, fileName: string, data: Document, etag: string)
    requires !IsEmpty(data)
    ensures var key := GetSymlinksFilePath(dirKey, fileName);
      var (r, st') := Save(st, dirKey, fileName, data, etag);
      && st'.calls == st.calls + [PutCall(key, Serialize(data), if etag == "" then IfNoneMatch("*") else IfMatch(etag))]
      && (r.Ok? <==> st.faults.put.None? && ConditionHolds(SaveCondition(etag), Lookup(st, key)))
      && (st.faults.put.Some? ==> r == Err(st.faults.put.value))
      && (r.Err? ==> st'.objects == st.objects)
  {
  }

  /** A failed precondition leaves the objects alone and reports PreconditionFailed. */
  lemma SaveConflict(st: Store, dirKey: string, fileName: string, data: Document, etag: string)
    requires !IsEmpty(data) && st.faults.put.None?
    requires var key := GetSymlinksFilePath(dirKey, fileName);
      if etag == "" then key in st.objects else key !in st.objects || st.objects[key].etag != Some(etag)
    ensures var (r, st') := Save(st, dirKey, fileName, data, etag);
      r == Err(PreconditionFailedError) && IsPreconditionFailed(r.error)
      && Text.Contains(r.error.Text(), "PreconditionFailed") && st'.objects == st.objects
  {
    PreconditionFailedRecognised();
    Text.ContainsPrefix("PreconditionFailed", ": At least one of the pre-conditions you specified did not hold");
  }

  /** Whatever Save leaves at the key it wrote is the serialisation of a non-empty document:
      an empty symlinks file is never stored. */
  lemma SaveNeverStoresEmpty(st: Store, dirKey: string, fileName: string, data: Document, etag: string)
    ensures var key := GetSymlinksFilePath(dirKey, fileName);
      var st' := Save(st, dirKey, fileName, data, etag).1;
      key in st'.objects && (key !in st.objects || st'.objects[key] != st.objects[key]) ==>
        !IsEmpty(data) && ParseSymlinksFile(st'.objects[key].data) == Ok(data)
  {
    ParseSerialized(data);
  }

  /** A successful save of a non-empty document is read back by the next load, with the new
      ETag, which differs from the one it replaced. */
  lemma LoadAfterSave(st: Store, dirKey: string, fileName: string, data: Document, etag: string)
    requires !IsEmpty(data)
    requires Save(st, dirKey, fileName, data, etag).0.Ok?
    requires st.faults.get.None? && st.faults.read.None?
    ensures var (r, st') := Save(st, dirKey, fileName, data, etag);
      && r.value != "" && r.value != etag
      && Load(st', dirKey, fileName).0 == Ok(Loaded(data, r.value))
  {
    var key := GetSymlinksFilePath(dirKey, fileName);
    var (res, st') := Put(st, key, Serialize(data), SaveCondition(etag));
    assert Get(st', key).0 == Ok(GetOutput(Ok(Serialize(data)), res.value));
    ParseSerialized(data);
  }

  /** A stored file whose version is a number Go's int cannot hold and whose text contains
      "404" fails to load, with an error that reads as a missing file. */
  lemma Version404LoadsAsNotExist(got: Result<GetOutput>, j: Json.Json)
    requires j.JDecimal? || (j.JInt? && !InInt64(j.n))
    requires Text.Contains(Json.Literal(j), "404")
    requires got.Ok? && got.value.body == Ok(Json.Print(Json.JObject([Json.Member("version", j)])))
    ensures LoadOutcome(got).Err? && IsNotExist(LoadOutcome(got).error)
  {
    RefusedVersionQuoted(j);
  }

  /** A missing file loads as a fresh document without an ETag. */
  lemma LoadMissing(st: Store, dirKey: string, fileName: string)
    requires GetSymlinksFilePath(dirKey, fileName) !in st.objects && st.faults.get.None?
    ensures Load(st, dirKey, fileName).0 == Ok(Loaded(NewSymlinksFileData(), ""))
  {
  }

  /** Deleting succeeds and leaves no object whether or not there was one. */
  lemma DeleteFileRemoves(st: Store, dirKey: string, fileName: string)
    requires st.faults.delete.None?
    ensures var (r, st') := DeleteFile(st, dirKey, fileName);
      r == Ok(()) && GetSymlinksFilePath(dirKey, fileName) !in st'.objects
  {
  }

  // ---------------------------------------------------------------------------
  // The operations on the backend object

  method LoadSymlinksFile(cloud: MockBackend, dirKey: string, fileName: string) returns (r: Result<Loaded>)
    modifies cloud
    ensures (r, cloud.State()) == Load(old(cloud.State()), dirKey, fileName)
  {
    var key := GetSymlinksFilePath(dirKey, fileName);
    var got := cloud.GetBlob(key);
    if got.Err? {
      if IsNotExist(got.error) {
        return Ok(Loaded(NewSymlinksFileData(), ""));
      }
      return Err(got.error);
    }
    if got.value.body.Err? {
      return Err(got.value.body.error);
    }
    var parsed := ParseSymlinksFile(got.value.body.value);
    if parsed.Err? {
      return Err(parsed.error);
    }
    var etag := "";
    if got.value.etag.Some? {
      etag := got.value.etag.value;
    }
    return Ok(Loaded(parsed.value, etag));
  }

  method SaveSymlinksFile(cloud: MockBackend, dirKey: string, fileName: string, data: Document, expectedETag: string)
    returns (r: Result<string>)
    modifies cloud
    ensures (r, cloud.State()) == Save(old(cloud.State()), dirKey, fileName, data, expectedETag)
  {
    var key := GetSymlinksFilePath(dirKey, fileName);
    if IsEmpty(data) && expectedETag == "" {
      return Ok("");
    }
    if IsEmpty(data) {
      var res := cloud.DeleteBlob(key);
      if res.Err? && !IsNotExist(res.error) {
        return Err(res.error);
      }
      return Ok("");
    }
    var content := Serialize(data);
    var cond := if expectedETag == "" then IfNoneMatch("*") else IfMatch(expectedETag);
    var res := cloud.PutBlob(key, content, cond);
    if res.Err? {
      return Err(res.error);
    }
    var newETag := "";
    if res.value.Some? {
      newETag := res.value.value;
    }
    return Ok(newETag);
  }

  method DeleteSymlinksFile(cloud: MockBackend, dirKey: string, fileName: string) returns (r: Result<()>)
    modifies cloud
    ensures (r, cloud.State()) == DeleteFile(old(cloud.State()), dirKey, fileName)
  {
    var key := GetSymlinksFilePath(dirKey, fileName);
    var res := cloud.DeleteBlob(key);
    if res.Err? && !IsNotExist(res.error) {
      return Err(res.error);
    }
    return Ok(());
  }
}
