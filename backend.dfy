/** The storage backend as the symlinks layer uses it: keyed blobs with ETags, conditional
    puts, and injectable failures in the manner of the test doubles. The pure functions state
    what each call does to the store; the class is the mock object whose methods do it. */
module Backend {
  import opened Utf8
  import opened Errors
  import Text

  datatype StoredObject = StoredObject(data: Bytes, etag: Option<string>)

  /** The precondition of a conditional put: If-None-Match or If-Match. */
  datatype Condition = IfNoneMatch(value: string) | IfMatch(etag: string)

  /** The calls the backend has received, in order, with their parameters. */
  datatype Call =
    | GetCall(key: string)
    | PutCall(key: string, body: Bytes, condition: Condition)
    | DeleteCall(key: string)

  /** What GetBlob hands back: a body still to be read, which may fail, and the ETag header. */
  datatype GetOutput = GetOutput(body: Result<Bytes>, etag: Option<string>)

  /** Failures to inject: a GetBlob error, a failure while reading a body, a PutBlob error (as
      the conflict and error doubles return), a DeleteBlob error. */
  datatype Faults = Faults(get: Option<Error>, read: Option<Error>, put: Option<Error>, delete: Option<Error>)

  const NoFaults := Faults(None, None, None, None)

  /** The mock's whole state: the objects, how many ETags it has minted, the call log and the
      failures it is set to produce. */
  datatype Store = Store(objects: map<string, StoredObject>, minted: nat, calls: seq<Call>, faults: Faults)

  /** The error of a conditional put whose precondition does not hold (HTTP 412). */
  const PreconditionFailedError := Message("PreconditionFailed" + ": At least one of the pre-conditions you specified did not hold")

  lemma PreconditionFailedRecognised()
    ensures IsPreconditionFailed(PreconditionFailedError)
  {
    PreconditionFailedPrefixRecognised(": At least one of the pre-conditions you specified did not hold");
  }

  function Lookup(st: Store, key: string): Option<StoredObject>
  {
    if key in st.objects then Some(st.objects[key]) else None
  }

  /** Whether a put under `c` may replace `current`: If-None-Match "*" only when there is no
      object, If-None-Match with an ETag unless the object has it, If-Match only when the object
      has exactly that ETag. */
  function ConditionHolds(c: Condition, current: Option<StoredObject>): (r: bool)
    ensures c == IfNoneMatch("*") ==> (r <==> current.None?)
    ensures c.IfMatch? ==> (r <==> current.Some? && current.value.etag == Some(c.etag))
  {
    match c
    case IfNoneMatch(v) => current.None? || (v != "*" && current.value.etag != Some(v))
    case IfMatch(t) => current.Some? && current.value.etag == Some(t)
  }

  /** A new ETag: a quoted counter, marked with a prime in the odd case that it equals the ETag
      of the object it replaces. */
  function MintETag(n: nat, replaced: Option<StoredObject>): (t: string)
    ensures t != ""
    ensures replaced.Some? ==> replaced.value.etag != Some(t)
  {
    var t := "\"" + Text.NatToString(n) + "\"";
    if replaced.Some? && replaced.value.etag == Some(t) then t + "'" else t
  }

  /** GetBlob: the object's body and ETag, ENOENT for a missing key. Only the log changes. */
  function Get(st: Store, key: string): (out: (Result<GetOutput>, Store))
    ensures out.1 == st.(calls := st.calls + [GetCall(key)])
    ensures st.faults.get.Some? ==> out.0 == Err(st.faults.get.value)
    ensures st.faults.get.None? && key !in st.objects ==> out.0 == Err(Enoent) && IsNotExist(out.0.error)
    ensures st.faults.get.None? && key in st.objects ==> (out.0.Ok?
      && out.0.value.etag == st.objects[key].etag
      && out.0.value.body == (if st.faults.read.Some? then Err(st.faults.read.value) else Ok(st.objects[key].data)))
  {
    var st' := st.(calls := st.calls + [GetCall(key)]);
    if st.faults.get.Some? then (Err(st.faults.get.value), st')
    else if key !in st.objects then (Err(Enoent), st')
    else
      var obj := st.objects[key];
      var body := if st.faults.read.Some? then Err(st.faults.read.value) else Ok(obj.data);
      (Ok(GetOutput(body, obj.etag)), st')
  }

  /** PutBlob: stores the body under a fresh ETag when the condition holds; otherwise fails
      with PreconditionFailed and leaves the objects as they were. */
  function Put(st: Store, key: string, body: Bytes, cond: Condition): (out: (Result<Option<string>>, Store))
    ensures out.1.calls == st.calls + [PutCall(key, body, cond)] && out.1.faults == st.faults
    ensures out.0.Ok? <==> st.faults.put.None? && ConditionHolds(cond, Lookup(st, key))
    ensures out.0.Err? ==> out.1.objects == st.objects
    ensures out.0.Err? && st.faults.put.None? ==> out.0.error == PreconditionFailedError
    ensures out.0.Err? && st.faults.put.Some? ==> out.0.error == st.faults.put.value
    ensures out.0.Ok? ==> (out.0.value.Some? && out.0.value.value != ""
      && out.1.objects == st.objects[key := StoredObject(body, out.0.value)]
      && (key in st.objects ==> st.objects[key].etag != out.0.value))
  {
    var st' := st.(calls := st.calls + [PutCall(key, body, cond)]);
    if st.faults.put.Some? then (Err(st.faults.put.value), st')
    else
      var current := Lookup(st, key);
      if !ConditionHolds(cond, current) then (Err(PreconditionFailedError), st')
      else
        var tag := MintETag(st.minted, current);
        (Ok(Some(tag)), st'.(objects := st.objects[key := StoredObject(body, Some(tag))], minted := st.minted + 1))
  }

  /** DeleteBlob: removes the object; a missing key is reported as ENOENT. */
  function Delete(st: Store, key: string): (out: (Result<()>, Store))
    ensures out.1.calls == st.calls + [DeleteCall(key)] && out.1.faults == st.faults && out.1.minted == st.minted
    ensures out.0.Ok? <==> st.faults.delete.None? && key in st.objects
    ensures out.0.Ok? ==> out.1.objects == st.objects - {key}
    ensures out.0.Err? ==> out.1.objects == st.objects
    ensures st.faults.delete.None? && key !in st.objects ==> out.0 == Err(Enoent)
  {
    var st' := st.(calls := st.calls + [DeleteCall(key)]);
    if st.faults.delete.Some? then (Err(st.faults.delete.value), st')
    else if key !in st.objects then (Err(Enoent), st')
    else (Ok(()), st'.(objects := st.objects - {key}))
  }

  /** A successful put is what the next get returns. */
  lemma GetAfterPut(st: Store, key: string, body: Bytes, cond: Condition)
    requires Put(st, key, body, cond).0.Ok?
    requires st.faults.get.None? && st.faults.read.None?
    ensures var (tag, st') := Put(st, key, body, cond);
      Get(st', key).0 == Ok(GetOutput(Ok(body), tag.value))
  {
  }

  /** Creating with If-None-Match "*" succeeds exactly when the key is absent; replacing with
      If-Match succeeds exactly when the object carries that ETag. */
  lemma ConditionalPut(st: Store, key: string, body: Bytes, etag: string)
    requires st.faults.put.None?
    ensures Put(st, key, body, IfNoneMatch("*")).0.Ok? <==> key !in st.objects
    ensures Put(st, key, body, IfMatch(etag)).0.Ok? <==> key in st.objects && st.objects[key].etag == Some(etag)
  {
  }

  /** After a successful put, a put conditioned on the ETag it replaced fails. */
  lemma StaleETagRefused(st: Store, key: string, body: Bytes, body': Bytes, etag: string)
    requires st.faults.put.None?
    requires Put(st, key, body, IfMatch(etag)).0.Ok?
    ensures Put(Put(st, key, body, IfMatch(etag)).1, key, body', IfMatch(etag)).0 == Err(PreconditionFailedError)
  {
  }

  /** The mock object; its methods change only its fields. */
  class MockBackend {
    var objects: map<string, StoredObject>
    var minted: nat
    var calls: seq<Call>
    var faults: Faults

    function State(): Store
      reads this
    {
      Store(objects, minted, calls, faults)
    }

    /** An empty backend with no failures. */
    constructor ()
      ensures State() == Store(map[], 0, [], NoFaults)
    {
      objects := map[];
      minted := 0;
      calls := [];
      faults := NoFaults;
    }

    /** Puts an object in place directly, as a test fixture does. */
    method Seed(key: string, data: Bytes, etag: Option<string>)
      modifies this
      ensures State() == old(State()).(objects := old(objects)[key := StoredObject(data, etag)])
    {
      objects := objects[key := StoredObject(data, etag)];
    }

    method SetFaults(f: Faults)
      modifies this
      ensures State() == old(State()).(faults := f)
    {
      faults := f;
    }

    method GetBlob(key: string) returns (r: Result<GetOutput>)
      modifies this
      ensures (r, State()) == Get(old(State()), key)
    {
      calls := calls + [GetCall(key)];
      if faults.get.Some? {
        r := Err(faults.get.value);
      } else if key !in objects {
        r := Err(Enoent);
      } else {
        var body := if faults.read.Some? then Err(faults.read.value) else Ok(objects[key].data);
        r := Ok(GetOutput(body, objects[key].etag));
      }
    }

    method PutBlob(key: string, body: Bytes, cond: Condition) returns (r: Result<Option<string>>)
      modifies this
      ensures (r, State()) == Put(old(State()), key, body, cond)
    {
      calls := calls + [PutCall(key, body, cond)];
      if faults.put.Some? {
        r := Err(faults.put.value);
        return;
      }
      var current := if key in objects then Some(objects[key]) else None;
      if !ConditionHolds(cond, current) {
        r := Err(PreconditionFailedError);
        return;
      }
      var tag := MintETag(minted, current);
      objects := objects[key := StoredObject(body, Some(tag))];
      minted := minted + 1;
      r := Ok(Some(tag));
    }

    method DeleteBlob(key: string) returns (r: Result<()>)
      modifies this
      ensures (r, State()) == Delete(old(State()), key)
    {
      calls := calls + [DeleteCall(key)];
      if faults.delete.Some? {
        r := Err(faults.delete.value);
      } else if key !in objects {
        r := Err(Enoent);
      } else {
        objects := objects - {key};
        r := Ok(());
      }
    }
  }
}
