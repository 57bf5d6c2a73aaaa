/** The import side of the import/export codec: how one parsed element of
    an imported array becomes a record, and how a whole array does. */
module Import {
  import opened Values
  import opened Text
  import opened Tasks

  /** Imported text is cut to this many characters. */
  const MaxTextLength: nat := 120

  /** The `text` property of an element as `String(t.text ?? "")` sees it:
      absent or null, a value whose conversion to a string is `s`, or an
      object whose conversion throws (one whose `toString` and `valueOf` give
      no primitive, such as `{"toString": 0}`). */
  datatype TextField =
    | Missing
    | Converts(s: string)
    | Unconvertible
  {
    /** `String(t.text ?? "")`, when it does not throw. */
    function Coerced(): (r: string)
      requires !Unconvertible?
      ensures Missing? ==> r == ""
      ensures Converts? ==> r == s
    {
      match this
      case Missing => ""
      case Converts(s) => s
    }
  }

  /** One element of a parsed array. `Null` is the element `null`, on which
      reading `t.id` throws. Any other element reads as `Fields`, a field
      being `None` (or `Missing`) when the property is absent or null (a
      number, string or array element has none of the four properties). */
  datatype Item =
    | Null
    | Fields(id: Option<Value>, text: TextField, completed: Option<Value>, createdAt: Option<Value>)

  /** Mapping this element throws: it is `null`, or its text cannot be
      converted to a string. */
  predicate Throws(item: Item) {
    item.Null? || item.text.Unconvertible?
  }

  /** Some element of the array throws when mapped. */
  predicate AnyThrows(items: seq<Item>) {
    exists k :: 0 <= k < |items| && Throws(items[k])
  }

  /** The arrow passed to `arr.map` in the import handler, given the value
      `Date.now() + Math.random()` and the ISO timestamp it would draw for
      this element. An element that throws gives `None`. Otherwise a supplied id
      or timestamp is kept and a missing one is the fresh one; the text is at
      most 120 characters and a prefix of the supplied text (all of it when
      it fits), or empty when there is none; `completed` holds exactly when
      a truthy value was supplied. */
  function Normalize(item: Item, freshId: real, stamp: string): (r: Option<Record>)
    ensures r.None? <==> Throws(item)
    ensures r.Some? ==> |r.value.text| <= MaxTextLength && r.value.text <= item.text.Coerced()
    ensures r.Some? && |item.text.Coerced()| <= MaxTextLength ==> r.value.text == item.text.Coerced()
    ensures r.Some? ==> (r.value.completed <==> item.completed.Some? && Truthy(item.completed.value))
    ensures r.Some? ==> r.value.id == (if item.id.Some? then item.id.value else Number(freshId))
    ensures r.Some? ==> r.value.createdAt == (if item.createdAt.Some? then item.createdAt.value else Str(stamp))
  {
    match item
    case Null => None
    case Fields(id, text, completed, createdAt) =>
      if text.Unconvertible? then None
      else Some(Record(
        id.OrElse(Number(freshId)),
        Truncate(text.Coerced(), MaxTextLength),
        completed.Some? && Truthy(completed.value),
        createdAt.OrElse(Str(stamp))))
  }

  /** `arr.map(...)` over a whole array, element `k` drawing `freshIds[k]`
      and `stamps[k]`. It fails exactly when some element throws;
      otherwise the records correspond one to one with the elements. */
  function ImportRecords(items: seq<Item>, freshIds: seq<real>, stamps: seq<string>): (r: Option<seq<Record>>)
    requires |freshIds| == |items| && |stamps| == |items|
    ensures r.None? <==> AnyThrows(items)
    ensures r.Some? ==> |r.value| == |items|
    ensures r.Some? ==> forall k :: 0 <= k < |items| ==> Normalize(items[k], freshIds[k], stamps[k]) == Some(r.value[k])
  {
    if items == [] then Some([])
    else
      match Normalize(items[0], freshIds[0], stamps[0])
      case None => None
      case Some(first) =>
        match ImportRecords(items[1..], freshIds[1..], stamps[1..])
        case None => None
        case Some(rest) => Some([first] + rest)
  }

  /** A record whose id and timestamp compare by value, so that parsing
      them again gives values `===` to them. */
  predicate Primitive(r: Record) {
    !r.id.Composite? && !r.createdAt.Composite?
  }

  /** The elements `JSON.parse` gives back for the document `Export` wrote,
      for records whose id and timestamp are primitives. Parsing builds new
      objects, so a composite id would come back as another one; such
      records are excluded. */
  function Reread(rs: seq<Record>): (items: seq<Item>)
    requires forall k :: 0 <= k < |rs| ==> Primitive(rs[k])
    ensures |items| == |rs|
    ensures forall k :: 0 <= k < |items| ==> !Throws(items[k])
  {
    seq(|rs|, k requires 0 <= k < |rs| =>
      Fields(Some(rs[k].id), Converts(rs[k].text), Some(Boolean(rs[k].completed)), Some(rs[k].createdAt)))
  }

  /** Importing an exported list gives back the same records, whatever fresh
      values the import draws, when every record has a primitive id and
      timestamp and at most 120 characters of text. */
  lemma ExportImportRoundTrip(rs: seq<Record>, freshIds: seq<real>, stamps: seq<string>)
    requires |freshIds| == |rs| && |stamps| == |rs|
    requires forall k :: 0 <= k < |rs| ==> Primitive(rs[k]) && |rs[k].text| <= MaxTextLength
    ensures ImportRecords(Reread(rs), freshIds, stamps) == Some(rs)
  {
    var items := Reread(rs);
    var r := ImportRecords(items, freshIds, stamps);
    assert r.Some? && |r.value| == |rs|;
    forall k | 0 <= k < |rs| ensures r.value[k] == rs[k] {
      var got := Normalize(items[k], freshIds[k], stamps[k]).value;
      assert got == r.value[k];
      assert got.id == rs[k].id && got.createdAt == rs[k].createdAt;
      assert got.text == rs[k].text && got.completed == rs[k].completed;
    }
    assert r.value == rs;
  }

  /** Text added directly has no length limit, so a task of more than 120
      characters does not survive export followed by import: it comes back
      cut to its first 120 characters. */
  lemma LongTextDoesNotRoundTrip(rec: Record, freshId: real, stamp: string)
    requires |rec.text| > MaxTextLength
    requires Primitive(rec)
    ensures ImportRecords(Reread([rec]), [freshId], [stamp]) == Some([rec.(text := rec.text[..MaxTextLength])])
    ensures ImportRecords(Reread([rec]), [freshId], [stamp]) != Some([rec])
  {
    var items := Reread([rec]);
    var r := ImportRecords(items, [freshId], [stamp]);
    assert r.Some? && |r.value| == 1;
    var got := Normalize(items[0], freshId, stamp).value;
    assert got == r.value[0];
    assert got == rec.(text := rec.text[..MaxTextLength]);
    assert r.value == [got];
  }
}
