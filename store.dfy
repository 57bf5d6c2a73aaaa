/** The task list's state and the intents that change it: the module-level
    `tasks` and `filter` of the page script and its event handlers, with the
    page's rendering taken away. */
module Store {
  import opened Values
  import opened Seqs
  import opened Text
  import opened Tasks
  import opened Import

  /** How an import attempt ended, as the user sees it. */
  datatype ImportOutcome =
    | Ignored         // no file was chosen: nothing happens
    | Replaced        // the list was replaced and saved
    | InvalidFormat   // the document is not an array: "Invalid file format."
    | CouldNotImport  // reading, parsing or mapping threw: "Couldn't import that file."

  /** An import attempt after the file has been read and parsed. */
  datatype ImportDoc =
    | NoFile                   // the file input holds no file
    | Unreadable               // `file.text()` or `JSON.parse` threw
    | NotArray                 // parsed, but not an array
    | Array(items: seq<Item>)  // a parsed array

  /** What the import handler reports for `doc`: no file is ignored, a
      document that is not an array is an invalid format, one that cannot
      be read or parsed or whose mapping throws cannot be imported, and an
      array that maps replaces the list. */
  function ImportOutcomeOf(doc: ImportDoc, freshIds: seq<real>, stamps: seq<string>): (o: ImportOutcome)
    requires doc.Array? ==> |freshIds| == |doc.items| && |stamps| == |doc.items|
    ensures doc.NoFile? <==> o == Ignored
    ensures doc.Unreadable? || (doc.Array? && AnyThrows(doc.items)) <==> o == CouldNotImport
    ensures doc.NotArray? <==> o == InvalidFormat
    ensures o == Replaced <==> doc.Array? && ImportRecords(doc.items, freshIds, stamps).Some?
  {
    match doc
    case NoFile => Ignored
    case Unreadable => CouldNotImport
    case NotArray => InvalidFormat
    case Array(items) => if ImportRecords(items, freshIds, stamps).Some? then Replaced else CouldNotImport
  }

  class TaskStore {
    /** The list, in order. */
    var tasks: seq<Task>
    /** The filter chip last chosen. */
    var filter: Filter
    /** Identities not yet given to any record object. */
    var nextRef: Ref
    /** What the last `saveTasks` wrote to storage. */
    ghost var saved: seq<Record>
    /** How many times `saveTasks` has run. */
    ghost var saves: nat

    /** Every record object in the list is a distinct, already allocated one. */
    ghost predicate Valid()
      reads this
    {
      Allocated(tasks, nextRef)
    }

    /** Page start: `tasks` is what `loadTasks` returned and the filter is
        "all". No `saveTasks` has run yet; `saved` starts as the loaded list
        by convention, even when `loadTasks` fell back to `[]` because the
        slot was missing or unreadable. */
    constructor (loaded: seq<Record>)
      ensures Valid()
      ensures Export(tasks) == loaded && filter == All
      ensures saved == loaded && saves == 0
    {
      tasks := Attach(loaded, 0);
      filter := All;
      nextRef := |loaded|;
      saved := loaded;
      saves := 0;
    }

    /** `saveTasks`: the whole list is written to storage. */
    method Save()
      modifies this`saved, this`saves
      ensures saved == Export(tasks) && saves == old(saves) + 1
    {
      saved := Export(tasks);
      saves := saves + 1;
    }

    /** `addTask`: blank input is refused and nothing changes. Otherwise one
        open record with the trimmed text, the id `Date.now()` and the
        timestamp `stamp` is appended, the list is saved and the filter goes
        back to "all". */
    method Add(input: string, now: int, stamp: string) returns (added: bool)
      requires Valid()
      modifies this
      ensures Valid()
      ensures added <==> Trim(input) != []
      ensures !added ==> unchanged(this)
      ensures added ==> && tasks == old(tasks) + [Task(old(nextRef), Number(now as real), Trim(input), false, Str(stamp))]
                        && filter == All && nextRef == old(nextRef) + 1
                        && saved == Export(tasks) && saves == old(saves) + 1
    {
      var text := Trim(input);
      if text == [] {
        return false;
      }
      var task := Task(nextRef, Number(now as real), text, false, Str(stamp));
      AppendFresh(tasks, task, nextRef);
      tasks := tasks + [task];
      nextRef := nextRef + 1;
      Save();
      filter := All;
      added := true;
    }

    /** The checkbox handler of the record object `ref`: its `completed` is
        set to the checkbox's state (not flipped), nothing else changes, the
        list is saved, and the celebration check runs. */
    method SetCompleted(ref: Ref, checked: bool) returns (celebrate: bool)
      requires Valid()
      modifies this
      ensures Valid()
      ensures tasks == Ticked(old(tasks), ref, checked)
      ensures filter == old(filter) && nextRef == old(nextRef)
      ensures saved == Export(tasks) && saves == old(saves) + 1
      ensures celebrate == ShouldCelebrate(tasks)
    {
      TickedKeepsRefs(tasks, ref, checked, nextRef);
      tasks := Ticked(tasks, ref, checked);
      Save();
      celebrate := ShouldCelebrate(tasks);
    }

    /** `deleteTask(id)`: when the user confirms, every record carrying `id`
        is removed and the list is saved (also when none carried it);
        otherwise nothing changes. */
    method Delete(id: Value, confirmed: bool)
      requires Valid()
      modifies this
      ensures Valid()
      ensures !confirmed ==> unchanged(this)
      ensures confirmed ==> && tasks == Without(old(tasks), id)
                            && filter == old(filter) && nextRef == old(nextRef)
                            && saved == Export(tasks) && saves == old(saves) + 1
    {
      if confirmed {
        tasks := Without(tasks, id);
        Save();
      }
    }

    /** `endEdit` for the record object `target`, the edited content being
        `content`. Non-blank content, trimmed, becomes the record's text and
        reopens it; its id and timestamp stay, every other record is left
        alone, and the list is saved. Blank content asks to delete the
        record's id, as `Delete` does. */
    method CommitEdit(target: Task, content: string, confirmed: bool)
      requires Valid()
      modifies this
      ensures Valid()
      ensures filter == old(filter) && nextRef == old(nextRef)
      ensures Trim(content) != [] ==>
                && tasks == Reworded(old(tasks), target.ref, Trim(content))
                && saved == Export(tasks) && saves == old(saves) + 1
      ensures Trim(content) == [] && !confirmed ==> unchanged(this)
      ensures Trim(content) == [] && confirmed ==>
                && tasks == Without(old(tasks), target.id)
                && saved == Export(tasks) && saves == old(saves) + 1
    {
      var text := Trim(content);
      if text != [] {
        RewordedKeepsRefs(tasks, target.ref, text, nextRef);
        tasks := Reworded(tasks, target.ref, text);
        Save();
      } else {
        Delete(target.id, confirmed);
      }
    }

    /** Escape pressed as the first key after the edit button was clicked
        (the key listener runs once, so only the first key reaches it): the
        shown text is put back to the record's text and the edit is then
        committed like any other. So a record
        whose text is already trimmed keeps its text but is reopened and
        saved, and a record whose text is blank is offered for deletion.
        `target` is the record object's current value. */
    method CancelEdit(target: Task, confirmed: bool)
      requires Valid()
      requires forall t :: t in tasks && t.ref == target.ref ==> t == target
      modifies this
      ensures Valid()
      ensures filter == old(filter) && nextRef == old(nextRef)
      ensures Trim(target.text) != [] ==>
                && tasks == Reworded(old(tasks), target.ref, Trim(target.text))
                && saved == Export(tasks) && saves == old(saves) + 1
      ensures Trimmed(target.text) && target.text != [] ==>
                && tasks == Ticked(old(tasks), target.ref, false)
                && saved == Export(tasks) && saves == old(saves) + 1
      ensures Trim(target.text) == [] && !confirmed ==> unchanged(this)
      ensures Trim(target.text) == [] && confirmed ==>
                && tasks == Without(old(tasks), target.id)
                && saved == Export(tasks) && saves == old(saves) + 1
    {
      if Trimmed(target.text) && target.text != [] {
        ghost var before := tasks;
        TrimOfTrimmed(target.text);
        CommitEdit(target, target.text, confirmed);
        forall k | 0 <= k < |tasks| ensures tasks[k] == Ticked(before, target.ref, false)[k] {
          if before[k].ref == target.ref {
            assert before[k] in before;
          }
        }
      } else {
        CommitEdit(target, target.text, confirmed);
      }
    }

    /** The clear-completed handler: every done record is dropped and the
        open ones stay in order. Storage is written only when some record
        was done. */
    method ClearCompleted()
      requires Valid()
      modifies this
      ensures Valid()
      ensures tasks == Visible(old(tasks), Active)
      ensures forall t :: t in tasks ==> !t.completed
      ensures forall t :: t in old(tasks) && !t.completed ==> t in tasks
      ensures IsSubsequence(tasks, old(tasks))
      ensures filter == old(filter) && nextRef == old(nextRef)
      ensures (exists t :: t in old(tasks) && t.completed) ==> saved == Export(tasks) && saves == old(saves) + 1
      ensures (forall t :: t in old(tasks) ==> !t.completed) ==> saved == old(saved) && saves == old(saves) && tasks == old(tasks)
    {
      var hadCompleted := exists t :: t in tasks && t.completed;
      tasks := Visible(tasks, Active);
      if hadCompleted {
        Save();
      }
    }

    /** A filter chip: the filter becomes the one the chip's name selects. */
    method SetFilter(name: string)
      requires Valid()
      modifies this`filter
      ensures Valid()
      ensures filter == FilterOf(name)
    {
      filter := FilterOf(name);
    }

    /** The import handler, element `k` of an array drawing `freshIds[k]`
        and `stamps[k]` for a missing id or timestamp. Only an array that
        maps without throwing changes anything: it replaces the whole list
        with fresh record objects, one per element, and the list is saved;
        the filter is kept. Every other outcome leaves all state as it was. */
    method ImportDocument(doc: ImportDoc, freshIds: seq<real>, stamps: seq<string>) returns (outcome: ImportOutcome)
      requires Valid()
      requires doc.Array? ==> |freshIds| == |doc.items| && |stamps| == |doc.items|
      modifies this
      ensures Valid()
      ensures outcome == ImportOutcomeOf(doc, freshIds, stamps)
      ensures outcome != Replaced ==> unchanged(this)
      ensures outcome == Replaced ==>
                && doc.Array? && ImportRecords(doc.items, freshIds, stamps) == Some(Export(tasks))
                && |tasks| == |doc.items|
                && (forall t :: t in tasks ==> old(nextRef) <= t.ref < nextRef)
                && filter == old(filter)
                && saved == Export(tasks) && saves == old(saves) + 1
    {
      outcome := ImportOutcomeOf(doc, freshIds, stamps);
      if outcome == Replaced {
        var records := ImportRecords(doc.items, freshIds, stamps).value;
        AttachAllocated(records, nextRef);
        tasks := Attach(records, nextRef);
        nextRef := nextRef + |records|;
        Save();
      }
    }
  }
}
