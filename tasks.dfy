/** Task records and the pure views the list derives from them: the visible
    subset under a filter, the two counters and the celebration signal. */
module Tasks {
  import opened Values
  import opened Seqs

  /** The identity of a record object. Handlers hold on to the object itself,
      so two records with equal fields (even equal ids) are still different
      targets. It is not part of what is saved or exported. */
  type Ref = nat

  /** A record of the list: the object `{id, text, completed, createdAt}`
      together with its identity. */
  datatype Task = Task(ref: Ref, id: Value, text: string, completed: bool, createdAt: Value)
  {
    /** The four fields `JSON.stringify` writes for this record. */
    function Json(): Record {
      Record(id, text, completed, createdAt)
    }
  }

  /** A record as saved to storage or exported. */
  datatype Record = Record(id: Value, text: string, completed: bool, createdAt: Value)

  /** The document `JSON.stringify(tasks)` describes: every record's four
      fields, in list order. */
  function Export(ts: seq<Task>): (r: seq<Record>)
    ensures |r| == |ts|
    ensures forall k :: 0 <= k < |ts| ==> r[k] == ts[k].Json()
  {
    seq(|ts|, k requires 0 <= k < |ts| => ts[k].Json())
  }

  /** No record object occurs twice in the list. */
  predicate UniqueRefs(ts: seq<Task>) {
    forall i, j :: 0 <= i < j < |ts| ==> ts[i].ref != ts[j].ref
  }

  /** Every record object in the list is a distinct one with an identity
      below `next`, the first one not yet handed out. */
  predicate Allocated(ts: seq<Task>, next: Ref) {
    UniqueRefs(ts) && forall k :: 0 <= k < |ts| ==> ts[k].ref < next
  }

  /** Filtering a list never duplicates a record object. */
  lemma {:induction false} KeepUniqueRefs(ts: seq<Task>, p: Task -> bool)
    requires UniqueRefs(ts)
    ensures UniqueRefs(Keep(ts, p))
  {
    if ts != [] {
      KeepUniqueRefs(ts[1..], p);
      if p(ts[0]) {
        var r := Keep(ts, p);
        assert r == [ts[0]] + Keep(ts[1..], p);
        forall j | 0 < j < |r| ensures r[0].ref != r[j].ref {
          assert r[j] in Keep(ts[1..], p);
        }
      }
    }
  }

  /** Fresh record objects for `rs`, their identities counting up from
      `base`: distinct objects whose saved form is `rs`. */
  function Attach(rs: seq<Record>, base: Ref): (ts: seq<Task>)
    ensures |ts| == |rs| && Export(ts) == rs
    ensures forall k :: 0 <= k < |ts| ==> ts[k].ref == base + k
    ensures UniqueRefs(ts)
  {
    seq(|rs|, k requires 0 <= k < |rs| => Task(base + k, rs[k].id, rs[k].text, rs[k].completed, rs[k].createdAt))
  }

  /** Fresh record objects are allocated from `base` on, and only up to
      `base + |rs|`. */
  lemma AttachAllocated(rs: seq<Record>, base: Ref)
    ensures Allocated(Attach(rs, base), base + |rs|)
    ensures forall t :: t in Attach(rs, base) ==> base <= t.ref < base + |rs|
  {
  }

  /** `ts.filter(t => t.id !== id)`: every record carrying `id` is gone, the
      others all remain in their order, and a list without `id` is left as
      it is. */
  function Without(ts: seq<Task>, id: Value): (r: seq<Task>)
    ensures forall t :: t in r <==> t in ts && t.id != id
    ensures IsSubsequence(r, ts)
    ensures (forall t :: t in ts ==> t.id != id) ==> r == ts
    ensures UniqueRefs(ts) ==> UniqueRefs(r)
  {
    var p := (t: Task) => t.id != id;
    KeepIsSubsequence(ts, p);
    if UniqueRefs(ts) then KeepUniqueRefs(ts, p); Keep(ts, p) else Keep(ts, p)
  }

  /** Changing fields other than the identity, record by record, keeps
      identities distinct and already allocated. */
  lemma SameRefs(before: seq<Task>, after: seq<Task>, next: Ref)
    requires |after| == |before|
    requires forall k :: 0 <= k < |before| ==> after[k].ref == before[k].ref
    requires Allocated(before, next)
    ensures Allocated(after, next)
  {
  }

  /** Appending a record with a not yet used identity keeps identities
      distinct and allocated. */
  lemma AppendFresh(ts: seq<Task>, t: Task, next: Ref)
    requires Allocated(ts, next)
    requires t.ref == next
    ensures Allocated(ts + [t], next + 1)
  {
    var r := ts + [t];
    forall i, j | 0 <= i < j < |r| ensures r[i].ref != r[j].ref {
      assert r[i] == ts[i];
    }
  }

  /** The list after `t.completed = checked` on the record object `ref`:
      that object's flag is `checked`, every other record is as it was. */
  function Ticked(ts: seq<Task>, ref: Ref, checked: bool): (r: seq<Task>)
    ensures |r| == |ts|
    ensures forall k :: 0 <= k < |ts| ==> r[k] == if ts[k].ref == ref then ts[k].(completed := checked) else ts[k]
  {
    seq(|ts|, k requires 0 <= k < |ts| => if ts[k].ref == ref then ts[k].(completed := checked) else ts[k])
  }

  /** The list after `t.text = text; t.completed = false` on the record
      object `ref`: that object has the new text and is open again, keeping
      its id and timestamp; every other record is as it was. */
  function Reworded(ts: seq<Task>, ref: Ref, text: string): (r: seq<Task>)
    ensures |r| == |ts|
    ensures forall k :: 0 <= k < |ts| ==> r[k] == if ts[k].ref == ref then ts[k].(text := text, completed := false) else ts[k]
  {
    seq(|ts|, k requires 0 <= k < |ts| => if ts[k].ref == ref then ts[k].(text := text, completed := false) else ts[k])
  }

  /** Ticking or rewording a record keeps identities distinct and allocated. */
  lemma TickedKeepsRefs(ts: seq<Task>, ref: Ref, checked: bool, next: Ref)
    requires Allocated(ts, next)
    ensures Allocated(Ticked(ts, ref, checked), next)
  {
    SameRefs(ts, Ticked(ts, ref, checked), next);
  }

  lemma RewordedKeepsRefs(ts: seq<Task>, ref: Ref, text: string, next: Ref)
    requires Allocated(ts, next)
    ensures Allocated(Reworded(ts, ref, text), next)
  {
    SameRefs(ts, Reworded(ts, ref, text), next);
  }

  datatype Filter = All | Active | Completed

  /** The filter a chip's name selects, as the conditional in `render` reads
      it: "all" shows everything, "active" the open records, and any other
      name behaves like "completed". */
  function FilterOf(name: string): (f: Filter)
    ensures f == All <==> name == "all"
    ensures f == Active <==> name == "active"
    ensures name == "completed" ==> f == Completed
  {
    if name == "all" then All else if name == "active" then Active else Completed
  }

  /** Whether a record passes a filter. */
  predicate Shows(f: Filter, t: Task) {
    match f
    case All => true
    case Active => !t.completed
    case Completed => t.completed
  }

  /** The records `render` paints under filter `f`: all of them for `All`,
      exactly the open ones for `Active`, exactly the done ones for
      `Completed`, always in list order. */
  function Visible(ts: seq<Task>, f: Filter): (r: seq<Task>)
    ensures f == All ==> r == ts
    ensures f == Active ==> forall t :: t in r <==> t in ts && !t.completed
    ensures f == Completed ==> forall t :: t in r <==> t in ts && t.completed
    ensures IsSubsequence(r, ts)
    ensures UniqueRefs(ts) ==> UniqueRefs(r)
  {
    var p := (t: Task) => Shows(f, t);
    KeepIsSubsequence(ts, p);
    if UniqueRefs(ts) then KeepUniqueRefs(ts, p); Keep(ts, p) else Keep(ts, p)
  }

  /** Every record is either open or done, so the list splits into the two
      filtered views. */
  lemma {:induction false} VisiblePartition(ts: seq<Task>)
    ensures |Visible(ts, Completed)| + |Visible(ts, Active)| == |ts|
  {
    if ts != [] {
      VisiblePartition(ts[1..]);
      assert Visible(ts, Completed) == (if ts[0].completed then [ts[0]] else []) + Visible(ts[1..], Completed);
      assert Visible(ts, Active) == (if ts[0].completed then [] else [ts[0]]) + Visible(ts[1..], Active);
    }
  }

  /** Appending a record extends each filtered view by that record when it
      passes the filter, and leaves the view as it was otherwise. */
  lemma VisibleAppend(ts: seq<Task>, t: Task, f: Filter)
    ensures Visible(ts + [t], f) == Visible(ts, f) + (if Shows(f, t) then [t] else [])
  {
    KeepAppend(ts, t, (x: Task) => Shows(f, x));
  }

  /** The two counters `updateCounters` shows: (done, open). The done counter
      counts the records with `completed` set, the open one those without,
      and together they count the list. */
  function Counts(ts: seq<Task>): (r: (nat, nat))
    ensures r.0 == |Visible(ts, Completed)|
    ensures r.1 == |Visible(ts, Active)|
    ensures r.0 + r.1 == |ts|
  {
    VisiblePartition(ts);
    var done := |Visible(ts, Completed)|;
    (done, |ts| - done)
  }

  /** A new open record raises the open counter by one and leaves the done
      counter as it was. */
  lemma CountsAfterAppendOpen(ts: seq<Task>, t: Task)
    requires !t.completed
    ensures Counts(ts + [t]) == (Counts(ts).0, Counts(ts).1 + 1)
  {
    VisibleAppend(ts, t, Completed);
    VisibleAppend(ts, t, Active);
    assert |Visible(ts + [t], Completed)| == |Visible(ts, Completed)|;
    assert |Visible(ts + [t], Active)| == |Visible(ts, Active)| + 1;
  }

  /** The condition in `maybeCelebrate`: the list is non-empty and every
      record is done. */
  predicate ShouldCelebrate(ts: seq<Task>) {
    |ts| > 0 && forall t :: t in ts ==> t.completed
  }

  /** Celebration happens exactly when the list is non-empty and the open
      counter reads zero; in particular never for the empty list. */
  lemma CelebrateIffNoneOpen(ts: seq<Task>)
    ensures ShouldCelebrate(ts) <==> ts != [] && Counts(ts).1 == 0
    ensures ShouldCelebrate(ts) <==> ts != [] && Counts(ts).0 == |ts|
  {
    var open := Visible(ts, Active);
    if !ShouldCelebrate(ts) && ts != [] {
      var t :| t in ts && !t.completed;
      assert t in open;
    }
  }
}
