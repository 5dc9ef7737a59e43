/** The per-directory symlinks document: a versioned map from symlink name to its target and
    modification time, its operations, and its JSON encoding. */
module SymlinksFile {
  import opened Utf8
  import opened Errors
  import opened Json
  import Text

  /** Go's int64, and Go's int on a 64-bit platform. */
  type Int64 = x: int | -0x8000_0000_0000_0000 <= x < 0x8000_0000_0000_0000

  predicate InInt64(n: int)
  {
    -0x8000_0000_0000_0000 <= n < 0x8000_0000_0000_0000
  }

  /** One symlink: where it points and when it was last set (Unix seconds). */
  datatype SymlinkEntry = SymlinkEntry(target: string, mtime: Int64)

  /** The content of a symlinks file. */
  datatype Document = Document(version: Int64, symlinks: map<string, SymlinkEntry>)

  /** What a decoder starts each entry from: Go's zero SymlinkEntry. */
  const ZeroEntry := SymlinkEntry("", 0)

  // ---------------------------------------------------------------------------
  // Operations on a document

  /** A fresh document: version 1, no symlinks. */
  function NewSymlinksFileData(): (d: Document)
    ensures d.version == 1
    ensures IsEmpty(d)
  {
    Document(1, map[])
  }

  /** The target of a symlink and whether it exists; the empty target when it does not. */
  function GetSymlink(d: Document, name: string): (r: (string, bool))
    ensures r.1 <==> HasSymlink(d, name)
    ensures r.1 ==> r.0 == d.symlinks[name].target
    ensures !r.1 ==> r.0 == ""
  {
    if name in d.symlinks then (d.symlinks[name].target, true) else ("", false)
  }

  /** Whether a symlink of that name exists. */
  function HasSymlink(d: Document, name: string): (r: bool)
    ensures r <==> name in d.symlinks.Keys
  {
    name in d.symlinks
  }

  /** Whether the document holds no symlink at all. */
  function IsEmpty(d: Document): (r: bool)
    ensures r <==> forall name :: !HasSymlink(d, name)
  {
    if |d.symlinks| == 0 then
      true
    else
      var name :| name in d.symlinks;
      assert HasSymlink(d, name);
      false
  }

  /** The document after AddSymlink: the entry for `name` is set, every other entry stays. */
  function WithSymlink(d: Document, name: string, target: string, mtime: Int64): (r: Document)
    ensures r.version == d.version
    ensures GetSymlink(r, name) == (target, true) && r.symlinks[name].mtime == mtime
    ensures forall other :: other != name ==> GetSymlink(r, other) == GetSymlink(d, other)
    ensures forall other :: other != name && other in d.symlinks ==> other in r.symlinks && r.symlinks[other] == d.symlinks[other]
    ensures r.symlinks.Keys == d.symlinks.Keys + {name}
    ensures !IsEmpty(r)
  {
    Document(d.version, d.symlinks[name := SymlinkEntry(target, mtime)])
  }

  /** The document after RemoveSymlink: `name` is gone, every other entry stays. */
  function WithoutSymlink(d: Document, name: string): (r: Document)
    ensures r.version == d.version
    ensures !HasSymlink(r, name)
    ensures forall other :: other != name ==> GetSymlink(r, other) == GetSymlink(d, other)
    ensures forall other :: other != name && other in d.symlinks ==> other in r.symlinks && r.symlinks[other] == d.symlinks[other]
    ensures r.symlinks.Keys == d.symlinks.Keys - {name}
  {
    Document(d.version, d.symlinks - {name})
  }

  /** Adding a name that is already there replaces its entry: still one entry per name. */
  lemma AddSymlinkTwice(d: Document, name: string, t1: string, m1: Int64, t2: string, m2: Int64)
    ensures WithSymlink(WithSymlink(d, name, t1, m1), name, t2, m2) == WithSymlink(d, name, t2, m2)
    ensures |WithSymlink(d, name, t1, m1).symlinks| == |d.symlinks| + (if HasSymlink(d, name) then 0 else 1)
  {
    var r := WithSymlink(d, name, t1, m1);
    if HasSymlink(d, name) {
      assert r.symlinks.Keys == d.symlinks.Keys;
    } else {
      assert r.symlinks.Keys == d.symlinks.Keys + {name};
    }
  }

  /** Removing an absent name changes nothing; removing a present one drops exactly one entry. */
  lemma RemoveSymlinkCount(d: Document, name: string)
    ensures !HasSymlink(d, name) ==> WithoutSymlink(d, name) == d
    ensures |WithoutSymlink(d, name).symlinks| == |d.symlinks| - (if HasSymlink(d, name) then 1 else 0)
  {
    var r := WithoutSymlink(d, name);
    if HasSymlink(d, name) {
      assert r.symlinks.Keys == d.symlinks.Keys - {name};
    } else {
      assert r.symlinks.Keys == d.symlinks.Keys;
      assert r.symlinks == d.symlinks;
    }
  }

  /** Removing what was just added gives back the document without that name. */
  lemma RemoveAfterAdd(d: Document, name: string, target: string, mtime: Int64)
    ensures WithoutSymlink(WithSymlink(d, name, target, mtime), name) == WithoutSymlink(d, name)
  {
    assert WithoutSymlink(WithSymlink(d, name, target, mtime), name).symlinks == WithoutSymlink(d, name).symlinks;
  }

  /** The document as a Go value the methods update in place. */
  class SymlinksFileData {
    var version: Int64
    var symlinks: map<string, SymlinkEntry>

    /** The document the object currently holds. */
    function Snapshot(): Document
      reads this
    {
      Document(version, symlinks)
    }

    /** NewSymlinksFileData. */
    constructor ()
      ensures Snapshot() == NewSymlinksFileData()
    {
      version := 1;
      symlinks := map[];
    }

    /** A copy of a document, as ParseSymlinksFile hands it out. */
    constructor FromDocument(d: Document)
      ensures Snapshot() == d
    {
      version := d.version;
      symlinks := d.symlinks;
    }

    /** AddSymlink with the clock reading `now` as the entry's mtime. */
    method AddSymlink(name: string, target: string, now: Int64)
      modifies this
      ensures Snapshot() == WithSymlink(old(Snapshot()), name, target, now)
    {
      symlinks := symlinks[name := SymlinkEntry(target, now)];
    }

    method RemoveSymlink(name: string)
      modifies this
      ensures Snapshot() == WithoutSymlink(old(Snapshot()), name)
    {
      symlinks := symlinks - {name};
    }
  }

  // ---------------------------------------------------------------------------
  // Encoding

  function EntryJson(e: SymlinkEntry): Json
  {
    JObject([Member("target", JString(e.target)), Member("mtime", JInt(e.mtime))])
  }

  /** The members of the `symlinks` object, in the order of `keys`. */
  function EntriesJson(m: map<string, SymlinkEntry>, keys: seq<string>): (r: seq<Member>)
    requires forall k :: k in keys ==> k in m
    ensures |r| == |keys|
    ensures forall i :: 0 <= i < |keys| ==> r[i] == Member(keys[i], EntryJson(m[keys[i]]))
  {
    if keys == [] then [] else [Member(keys[0], EntryJson(m[keys[0]]))] + EntriesJson(m, keys[1..])
  }

  /** The document as a JSON object whose `symlinks` members follow `keys`. */
  function DocumentJson(d: Document, keys: seq<string>): Json
    requires forall k :: k in keys ==> k in d.symlinks
  {
    JObject([Member("version", JInt(d.version)), Member("symlinks", JObject(EntriesJson(d.symlinks, keys)))])
  }

  /** Serialize: the document with its symlinks in increasing name order, as Go's encoder
      writes a map. */
  function Serialize(d: Document): (r: Bytes)
    ensures |r| > 0
  {
    Print(DocumentJson(d, Text.Sorted(d.symlinks.Keys)))
  }

  // ---------------------------------------------------------------------------
  // Decoding, as json.Unmarshal into a SymlinksFileData: fields are matched by their exact
  // name, unknown fields are skipped whatever they hold, a later duplicate overrides an earlier
  // one, `null` leaves a number or a string as it was and resets the map, and any other
  // mismatch of types is an error naming the value and where it was to be stored.

  /** Where decoding was storing a value when it refused it, as Go's decoder names the place:
      the document itself, or a struct, the path of JSON field names leading to the field, and
      the Go type of the field. */
  datatype Place = Root | Field(owner: string, path: string, goType: string)

  const VersionPlace := Field("SymlinksFileData", "version", "int")
  const SymlinksPlace := Field("SymlinksFileData", "symlinks", "map[string]core.SymlinkEntry")
  const EntryPlace := Field("SymlinksFileData", "symlinks", "core.SymlinkEntry")
  const TargetPlace := Field("SymlinkEntry", "symlinks.target", "string")
  const MtimePlace := Field("SymlinkEntry", "symlinks.mtime", "int64")

  /** How Go's decoder names the kind of a JSON value. */
  function KindName(j: Json): string
  {
    match j
    case JNull => "null"
    case JBool(_) => "bool"
    case JInt(_) => "number"
    case JDecimal(_, _, _) => "number"
    case JString(_) => "string"
    case JArray(_) => "array"
    case JObject(_) => "object"
  }

  function PlaceText(place: Place): string
  {
    match place
    case Root => "Go value of type core.SymlinksFileData"
    case Field(owner, path, goType) => "Go struct field " + owner + "." + path + " of type " + goType
  }

  /** The message of Go's UnmarshalTypeError for the value described by `value`. */
  function TypeError(value: string, place: Place): Error
  {
    Message("json: cannot unmarshal " + value + " into " + PlaceText(place))
  }

  /** An integer field. A number that is not an integer in range is refused with its literal
      text quoted. */
  function DecodeInt64(j: Json, current: Int64, place: Place): (r: Result<Int64>)
    ensures j.JInt? && InInt64(j.n) ==> r == Ok(j.n)
    ensures j == JNull ==> r == Ok(current)
    ensures r.Ok? <==> j == JNull || (j.JInt? && InInt64(j.n))
    ensures r.Err? && (j.JInt? || j.JDecimal?) ==> r.error == TypeError("number " + Literal(j), place)
    ensures r.Err? && !(j.JInt? || j.JDecimal?) ==> r.error == TypeError(KindName(j), place)
  {
    match j
    case JNull => Ok(current)
    case JInt(n) => if InInt64(n) then Ok(n) else Err(TypeError("number " + Literal(j), place))
    case JDecimal(_, _, _) => Err(TypeError("number " + Literal(j), place))
    case _ => Err(TypeError(KindName(j), place))
  }

  /** A string field. */
  function DecodeString(j: Json, current: string, place: Place): (r: Result<string>)
    ensures r.Ok? <==> j == JNull || j.JString?
    ensures j.JString? ==> r == Ok(j.s)
    ensures j == JNull ==> r == Ok(current)
    ensures r.Err? ==> r.error == TypeError(KindName(j), place)
  {
    match j
    case JNull => Ok(current)
    case JString(s) => Ok(s)
    case _ => Err(TypeError(KindName(j), place))
  }

  /** The fields of one entry object, applied in order to `e`. */
  function DecodeEntryFields(ms: seq<Member>, e: SymlinkEntry): Result<SymlinkEntry>
  {
    if ms == [] then Ok(e)
    else
      var m := ms[0];
      var e' :-
        if m.key == "target" then
          var t :- DecodeString(m.value, e.target, TargetPlace); Ok(e.(target := t))
        else if m.key == "mtime" then
          var n :- DecodeInt64(m.value, e.mtime, MtimePlace); Ok(e.(mtime := n))
        else Ok(e);
      DecodeEntryFields(ms[1..], e')
  }

  /** One map element; Go starts each element from the zero entry, and `null` leaves it so. */
  function DecodeEntry(j: Json): Result<SymlinkEntry>
  {
    match j
    case JNull => Ok(ZeroEntry)
    case JObject(ms) => DecodeEntryFields(ms, ZeroEntry)
    case _ => Err(TypeError(KindName(j), EntryPlace))
  }

  /** The members of the `symlinks` object, stored in order into `m`. */
  function DecodeEntries(ms: seq<Member>, m: map<string, SymlinkEntry>): Result<map<string, SymlinkEntry>>
  {
    if ms == [] then Ok(m)
    else
      var e :- DecodeEntry(ms[0].value);
      DecodeEntries(ms[1..], m[ms[0].key := e])
  }

  /** The `symlinks` field; `None` is Go's nil map. A map that is already there is added to. */
  function DecodeSymlinks(j: Json, current: Option<map<string, SymlinkEntry>>): Result<Option<map<string, SymlinkEntry>>>
  {
    match j
    case JNull => Ok(None)
    case JObject(ms) =>
      var m :- DecodeEntries(ms, if current.Some? then current.value else map[]);
      Ok(Some(m))
    case _ => Err(TypeError(KindName(j), SymlinksPlace))
  }

  /** What decoding has produced so far of the top-level object. */
  datatype Partial = Partial(version: Int64, symlinks: Option<map<string, SymlinkEntry>>)

  function DecodeFields(ms: seq<Member>, p: Partial): Result<Partial>
  {
    if ms == [] then Ok(p)
    else
      var m := ms[0];
      var p' :-
        if m.key == "version" then
          var v :- DecodeInt64(m.value, p.version, VersionPlace); Ok(p.(version := v))
        else if m.key == "symlinks" then
          var s :- DecodeSymlinks(m.value, p.symlinks); Ok(p.(symlinks := s))
        else Ok(p);
      DecodeFields(ms[1..], p')
  }

  /** The document a JSON value decodes to, starting from Go's zero SymlinksFileData; a nil
      map is replaced by an empty one. */
  function DecodeDocument(j: Json): (r: Result<Document>)
    ensures !(j.JObject? || j == JNull) ==> r.Err?
  {
    match j
    case JNull => Ok(Document(0, map[]))
    case JObject(ms) =>
      var p :- DecodeFields(ms, Partial(0, None));
      Ok(Document(p.version, if p.symlinks.Some? then p.symlinks.value else map[]))
    case _ => Err(TypeError(KindName(j), Root))
  }

  /** ParseSymlinksFile: empty content is a fresh document, anything else must be JSON that
      decodes to a document. */
  function ParseSymlinksFile(data: Bytes): (r: Result<Document>)
    ensures data == [] ==> r == Ok(NewSymlinksFileData())
    ensures data != [] && Parse(data).Err? ==> r.Err?
    ensures data != [] && Parse(data).Ok? ==> r == DecodeDocument(Parse(data).value)
  {
    if |data| == 0 then Ok(NewSymlinksFileData())
    else
      var j :- Parse(data);
      DecodeDocument(j)
  }

  // ---------------------------------------------------------------------------
  // Round trip

  lemma DecodeEntryJson(e: SymlinkEntry)
    ensures DecodeEntry(EntryJson(e)) == Ok(e)
  {
    var ms := [Member("target", JString(e.target)), Member("mtime", JInt(e.mtime))];
    assert ms[1..][1..] == [];
    assert DecodeEntryFields(ms[1..], ZeroEntry.(target := e.target)) == Ok(e);
  }

  /** `acc` with the entry of `m` stored for each of `keys` in turn. */
  function Stored(acc: map<string, SymlinkEntry>, m: map<string, SymlinkEntry>, keys: seq<string>): map<string, SymlinkEntry>
    requires forall k :: k in keys ==> k in m
    decreases |keys|
  {
    if keys == [] then acc else Stored(acc[keys[0] := m[keys[0]]], m, keys[1..])
  }

  lemma {:induction false} StoredLookup(acc: map<string, SymlinkEntry>, m: map<string, SymlinkEntry>, keys: seq<string>)
    requires forall k :: k in keys ==> k in m
    ensures forall k :: k in Stored(acc, m, keys) <==> k in acc || k in keys
    ensures forall k :: k in keys ==> Stored(acc, m, keys)[k] == m[k]
    ensures forall k :: k in acc && k !in keys ==> Stored(acc, m, keys)[k] == acc[k]
    decreases |keys|
  {
    if keys != [] {
      StoredLookup(acc[keys[0] := m[keys[0]]], m, keys[1..]);
    }
  }

  /** Decoding the printed entries stores, over what was there, the entry of every listed key. */
  lemma {:induction false} DecodeEntriesJson(m: map<string, SymlinkEntry>, keys: seq<string>, acc: map<string, SymlinkEntry>)
    requires forall k :: k in keys ==> k in m
    ensures DecodeEntries(EntriesJson(m, keys), acc) == Ok(Stored(acc, m, keys))
  {
    if keys != [] {
      var ms := EntriesJson(m, keys);
      DecodeEntryJson(m[keys[0]]);
      assert ms[1..] == EntriesJson(m, keys[1..]);
      DecodeEntriesJson(m, keys[1..], acc[keys[0] := m[keys[0]]]);
    }
  }

  lemma SymlinksOfJson(d: Document, keys: seq<string>)
    requires forall k :: k in d.symlinks <==> k in keys
    ensures DecodeSymlinks(JObject(EntriesJson(d.symlinks, keys)), None) == Ok(Some(d.symlinks))
  {
    DecodeEntriesJson(d.symlinks, keys, map[]);
    StoredLookup(map[], d.symlinks, keys);
    assert Stored(map[], d.symlinks, keys) == d.symlinks;
  }

  /** The JSON of a document decodes to the document, whatever order the keys are listed in. */
  lemma DecodeDocumentJson(d: Document, keys: seq<string>)
    requires forall k :: k in d.symlinks <==> k in keys
    ensures DecodeDocument(DocumentJson(d, keys)) == Ok(d)
  {
    var entries := JObject(EntriesJson(d.symlinks, keys));
    var ms := [Member("version", JInt(d.version)), Member("symlinks", entries)];
    SymlinksOfJson(d, keys);
    var p1 := Partial(d.version, None);
    assert DecodeFields(ms, Partial(0, None)) == DecodeFields(ms[1..], p1);
    assert ms[1..][1..] == [];
    assert DecodeFields(ms[1..], p1) == Ok(Partial(d.version, Some(d.symlinks)));
  }

  /** Printing a document with any enumeration of its keys and parsing it back gives it again. */
  lemma SerializeRoundTrip(d: Document, keys: seq<string>)
    requires forall k :: k in d.symlinks <==> k in keys
    ensures ParseSymlinksFile(Print(DocumentJson(d, keys))) == Ok(d)
  {
    var j := DocumentJson(d, keys);
    ParsePrint(j);
    DecodeDocumentJson(d, keys);
  }

  /** Parsing what Serialize writes gives the document back. */
  lemma ParseSerialized(d: Document)
    ensures ParseSymlinksFile(Serialize(d)) == Ok(d)
  {
    SerializeRoundTrip(d, Text.Sorted(d.symlinks.Keys));
  }

  // ---------------------------------------------------------------------------
  // Decoding corner cases

  /** A `symlinks` field that is null or missing still gives an (empty) map. */
  lemma NullSymlinksBecomeEmpty(v: Int64)
    ensures DecodeDocument(JObject([Member("version", JInt(v)), Member("symlinks", JNull)])) == Ok(Document(v, map[]))
    ensures DecodeDocument(JObject([Member("version", JInt(v))])) == Ok(Document(v, map[]))
  {
    var ms := [Member("version", JInt(v)), Member("symlinks", JNull)];
    var p1 := Partial(v, None);
    assert DecodeFields(ms, Partial(0, None)) == DecodeFields(ms[1..], p1);
    assert ms[1..][1..] == [];
    assert DecodeFields(ms[1..], p1) == Ok(p1);
    assert DecodeFields([Member("version", JInt(v))], Partial(0, None)) == DecodeFields([], p1);
  }

  /** A `null` document decodes to Go's zero value, whose nil map is replaced by an empty one. */
  lemma NullDocument()
    ensures ParseSymlinksFile(Ascii("null")) == Ok(Document(0, map[]))
  {
    ParsePrint(JNull);
    assert Print(JNull) == Ascii("null");
  }

  /** An entry written as a bare string is a type error, so the whole file is refused. */
  lemma StringEntryRefused(v: Int64, name: string, target: string)
    ensures DecodeDocument(JObject([Member("version", JInt(v)),
      Member("symlinks", JObject([Member(name, JString(target))]))])).Err?
  {
    var ms := [Member("version", JInt(v)), Member("symlinks", JObject([Member(name, JString(target))]))];
    var p1 := Partial(v, None);
    assert DecodeFields(ms, Partial(0, None)) == DecodeFields(ms[1..], p1);
    assert DecodeEntry(JString(target)).Err?;
    assert DecodeSymlinks(ms[1].value, None).Err?;
  }

  /** A version outside the range of Go's int is refused. */
  lemma VersionOutOfRange(n: int)
    requires !InInt64(n)
    ensures DecodeDocument(JObject([Member("version", JInt(n))])).Err?
  {
  }

  /** A member whose name is neither field is skipped whatever it holds, a number with a
      fraction or an exponent included. */
  lemma UnknownFieldSkipped(k: string, f: Json)
    requires k != "version" && k != "symlinks"
    ensures ParseSymlinksFile(Print(JObject([Member(k, f)]))) == Ok(Document(0, map[]))
  {
    var ms := [Member(k, f)];
    ParsePrint(JObject(ms));
    assert DecodeFields(ms, Partial(0, None)) == DecodeFields([], Partial(0, None));
  }

  /** The error names the refused value as described. */
  lemma TypeErrorQuotes(value: string, place: Place)
    ensures TypeError(value, place).Message?
    ensures Text.Contains(TypeError(value, place).Text(), value)
  {
    var front := "json: cannot unmarshal ";
    var back := " into " + PlaceText(place);
    assert TypeError(value, place).Text() == front + value + back;
    Text.ContainsMiddle(front, value, back);
  }

  /** A refused number is quoted in the error, so a number whose digits include "404" makes
      the error read as a missing object. */
  lemma NumberErrorQuotesLiteral(j: Json, current: Int64, place: Place)
    requires j.JDecimal? || (j.JInt? && !InInt64(j.n))
    ensures DecodeInt64(j, current, place).Err?
    ensures Text.Contains(DecodeInt64(j, current, place).error.Text(), Literal(j))
    ensures Text.Contains(Literal(j), "404") ==> IsNotExist(DecodeInt64(j, current, place).error)
  {
    var e := DecodeInt64(j, current, place).error;
    var lit := Literal(j);
    var value := "number " + lit;
    TypeErrorQuotes(value, place);
    Text.ContainsItself(lit);
    Text.ContainsAfterPrefix("number ", lit, lit);
    Text.ContainsTransitive(e.Text(), value, lit);
    if Text.Contains(lit, "404") {
      Text.ContainsTransitive(e.Text(), lit, "404");
      Mentions404(e);
    }
  }

  /** A file whose version is a fraction, an exponent or an integer outside int64 is refused
      with an error quoting the number; one with "404" in its digits reads as a missing file. */
  lemma RefusedVersionQuoted(j: Json)
    requires j.JDecimal? || (j.JInt? && !InInt64(j.n))
    ensures ParseSymlinksFile(Print(JObject([Member("version", j)]))).Err?
    ensures Text.Contains(ParseSymlinksFile(Print(JObject([Member("version", j)]))).error.Text(), Literal(j))
    ensures Text.Contains(Literal(j), "404") ==> IsNotExist(ParseSymlinksFile(Print(JObject([Member("version", j)]))).error)
  {
    var ms := [Member("version", j)];
    NumberErrorQuotesLiteral(j, 0, VersionPlace);
    var e := DecodeInt64(j, 0, VersionPlace).error;
    assert DecodeFields(ms, Partial(0, None)) == Err(e);
    assert DecodeDocument(JObject(ms)) == Err(e);
    DecodeErrorReported(JObject(ms));
  }

  /** A JSON value that does not decode makes its printed text refused with the same error. */
  lemma DecodeErrorReported(j: Json)
    requires DecodeDocument(j).Err?
    ensures ParseSymlinksFile(Print(j)) == DecodeDocument(j)
  {
    ParsePrint(j);
  }

  /** Text that starts like the word `null` but does not spell it, such as "not valid json",
      is refused. */
  lemma NotJsonRefused(data: Bytes)
    requires |data| >= 2 && data[0] == Byte('n') && data[1] != Byte('u')
    ensures ParseSymlinksFile(data).Err?
  {
    if |data| >= 4 {
      assert data[..4][1] != Ascii("null")[1];
    }
    assert ParseLiteral(data, "null", JNull).Err?;
    ParseValueAt(data);
  }
}
