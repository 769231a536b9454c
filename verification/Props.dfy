/**
 Diffing a source's declared properties into the stored ones (src/db/helpers/props.js): rows are
 written, the ones no longer declared are swept, and the subjects concerned are marked.
 */
module Props {
  import opened Wrappers
  import opened Collections

  datatype Subject =
    | Account(address: string)
    | Token(currency: string, issuer: string, mptIssuanceId: string, tokenType: string)

  /** A stored property; the value is its encoded form, which is what is compared. */
  datatype Row = Row(subject: Subject, key: string, value: string, source: string)

  /** A declared property; no value asks for its removal. */
  datatype Prop = Prop(key: string, value: Option<string>)

  /** A list entry; one without a subject is skipped. */
  datatype Entry = Entry(subject: Option<Subject>, props: seq<Prop>)

  /** One property of one entry. */
  datatype Write = Write(subject: Subject, key: string, value: Option<string>)

  /** The rows by id, the ids the sweep must keep, and the subjects marked. */
  datatype Diff = Diff(rows: map<int, Row>, kept: set<int>, dirty: set<Subject>, iconDirty: set<Subject>)

  predicate Matches(r: Row, s: Subject, k: string, source: string) {
    r.subject == s && r.key == k && r.source == source
  }

  /** The unique index of the table. */
  ghost predicate Unique(rows: map<int, Row>) {
    forall i, j :: i in rows && j in rows && Matches(rows[i], rows[j].subject, rows[j].key, rows[j].source) ==> i == j
  }

  ghost predicate Stored(rows: map<int, Row>, s: Subject, k: string, source: string) {
    exists id :: id in rows && Matches(rows[id], s, k, source)
  }

  ghost function IdOf(rows: map<int, Row>, s: Subject, k: string, source: string): (id: int)
    requires Stored(rows, s, k, source)
    ensures id in rows && Matches(rows[id], s, k, source)
  {
    var id :| id in rows && Matches(rows[id], s, k, source);
    id
  }

  /** The source's value of a property. */
  ghost function Look(rows: map<int, Row>, s: Subject, k: string, source: string): Option<string> {
    if Stored(rows, s, k, source) then Some(rows[IdOf(rows, s, k, source)].value) else None
  }

  /** The id of a new row, as the database numbers them: one above the highest. */
  function NewId(rows: map<int, Row>): (id: int)
    ensures id !in rows
  {
    if rows == map[] then 1 else
      assert rows.Keys != {};
      Greatest(rows.Keys) + 1
  }

  /** A write that changes what is stored marks its subject. */
  function Mark(d: Diff, w: Write): Diff {
    d.(dirty := d.dirty + {w.subject}, iconDirty := if w.key == "icon" then d.iconDirty + {w.subject} else d.iconDirty)
  }

  function Created(d: Diff, w: Write, v: string, source: string): Diff {
    var id := NewId(d.rows);
    Mark(d, w).(rows := d.rows[id := Row(w.subject, w.key, v, source)], kept := d.kept + {id})
  }

  function Deleted(d: Diff, w: Write, id: int): Diff {
    Mark(d, w).(rows := Without(d.rows, id))
  }

  function Kept(d: Diff, w: Write, v: string, id: int): Diff
    requires id in d.rows
  {
    var d' := d.(kept := d.kept + {id});
    if d.rows[id].value == v then d' else Mark(d', w).(rows := d.rows[id := d.rows[id].(value := v)])
  }

  /** One property applied. */
  ghost function Step(d: Diff, w: Write, source: string): Diff {
    if Stored(d.rows, w.subject, w.key, source) then
      var id := IdOf(d.rows, w.subject, w.key, source);
      match w.value
      case None => Deleted(d, w, id)
      case Some(v) => Kept(d, w, v, id)
    else
      match w.value
      case None => d
      case Some(v) => Created(d, w, v, source)
  }

  ghost function Applied(rows: map<int, Row>, writes: seq<Write>, n: nat, source: string): Diff
    requires n <= |writes|
  {
    if n == 0 then Diff(rows, {}, {}, {}) else Step(Applied(rows, writes, n - 1, source), writes[n - 1], source)
  }

  predicate Stale(d: Diff, id: int, source: string) {
    id in d.rows && d.rows[id].source == source && id !in d.kept
  }

  /** Rows of the source that were not kept go, and their subjects are marked. */
  function Swept(d: Diff, source: string): Diff {
    d.(rows := map id | id in d.rows && !Stale(d, id, source) :: d.rows[id],
       dirty := d.dirty + set id | id in d.rows && Stale(d, id, source) :: d.rows[id].subject)
  }

  ghost function Diffed(rows: map<int, Row>, writes: seq<Write>, source: string): Diff {
    Swept(Applied(rows, writes, |writes|, source), source)
  }

  /** The declared list replayed from empty: later writes win, no value deletes. */
  function Replay(writes: seq<Write>, n: nat, s: Subject, k: string): Option<string>
    requires n <= |writes|
  {
    if n == 0 then None
    else if writes[n - 1].subject == s && writes[n - 1].key == k then writes[n - 1].value
    else Replay(writes, n - 1, s, k)
  }

  ghost predicate Touched(writes: seq<Write>, n: nat, s: Subject, k: string)
    requires n <= |writes|
  {
    exists i :: 0 <= i < n && writes[i].subject == s && writes[i].key == k
  }

  // ---- One write ----

  /** A row's value is what its property reads. */
  lemma LookAt(rows: map<int, Row>, id: int)
    requires Unique(rows) && id in rows
    ensures Look(rows, rows[id].subject, rows[id].key, rows[id].source) == Some(rows[id].value)
    ensures Stored(rows, rows[id].subject, rows[id].key, rows[id].source)
    ensures IdOf(rows, rows[id].subject, rows[id].key, rows[id].source) == id
  {
  }

  lemma NotStored(rows: map<int, Row>, s: Subject, k: string, source: string)
    requires forall id :: id in rows ==> !Matches(rows[id], s, k, source)
    ensures Look(rows, s, k, source) == None
  {
  }

  /** A write changes its own row only: ids of other rows and other sources' rows stay as they are. */
  lemma StepRows(d: Diff, w: Write, source: string)
    requires Unique(d.rows)
    ensures Unique(Step(d, w, source).rows)
    ensures forall id :: id in d.rows && !Matches(d.rows[id], w.subject, w.key, source)
                         ==> id in Step(d, w, source).rows && Step(d, w, source).rows[id] == d.rows[id]
    ensures forall id :: id in Step(d, w, source).rows
                         && !Matches(Step(d, w, source).rows[id], w.subject, w.key, source)
                         ==> id in d.rows && Step(d, w, source).rows[id] == d.rows[id]
  {
    if !Stored(d.rows, w.subject, w.key, source) {
      assert forall id :: id in d.rows ==> !Matches(d.rows[id], w.subject, w.key, source);
    }
  }

  lemma StepReads(d: Diff, w: Write, source: string)
    requires Unique(d.rows)
    ensures Look(Step(d, w, source).rows, w.subject, w.key, source) == w.value
    ensures w.value.Some? ==> Stored(Step(d, w, source).rows, w.subject, w.key, source)
                              && IdOf(Step(d, w, source).rows, w.subject, w.key, source) in Step(d, w, source).kept
  {
    StepRows(d, w, source);
    var d' := Step(d, w, source);
    if w.value.Some? {
      var id := if Stored(d.rows, w.subject, w.key, source) then IdOf(d.rows, w.subject, w.key, source)
        else NewId(d.rows);
      LookAt(d'.rows, id);
    } else {
      NotStored(d'.rows, w.subject, w.key, source);
    }
  }

  lemma StepElsewhere(d: Diff, w: Write, source: string, s: Subject, k: string)
    requires Unique(d.rows) && !(w.subject == s && w.key == k)
    ensures Look(Step(d, w, source).rows, s, k, source) == Look(d.rows, s, k, source)
    ensures Stored(d.rows, s, k, source) ==>
              Stored(Step(d, w, source).rows, s, k, source)
              && IdOf(Step(d, w, source).rows, s, k, source) == IdOf(d.rows, s, k, source)
  {
    StepRows(d, w, source);
    hide Step;
    var d' := Step(d, w, source);
    if Stored(d.rows, s, k, source) {
      LookAt(d'.rows, IdOf(d.rows, s, k, source));
    } else {
      NotStored(d'.rows, s, k, source);
    }
  }

  lemma StepMarks(d: Diff, w: Write, source: string)
    requires Unique(d.rows)
    ensures d.kept <= Step(d, w, source).kept
    ensures Step(d, w, source).dirty
         == d.dirty + if Look(d.rows, w.subject, w.key, source) != w.value then {w.subject} else {}
    ensures Step(d, w, source).iconDirty
         == d.iconDirty
            + if Look(d.rows, w.subject, w.key, source) != w.value && w.key == "icon" then {w.subject} else {}
  {
  }

  /** A kept id is the written row's or was kept before. */
  lemma StepKept(d: Diff, w: Write, source: string, id: int)
    requires Unique(d.rows) && id in Step(d, w, source).kept && id in Step(d, w, source).rows
    ensures Matches(Step(d, w, source).rows[id], w.subject, w.key, source)
            || (id in d.kept && id in d.rows && Step(d, w, source).rows[id] == d.rows[id])
  {
    StepRows(d, w, source);
  }

  // ---- The whole list ----

  lemma {:induction false} AppliedUnique(rows: map<int, Row>, writes: seq<Write>, n: nat, source: string)
    requires n <= |writes| && Unique(rows)
    ensures Unique(Applied(rows, writes, n, source).rows)
  {
    hide Step, Unique;
    if n > 0 {
      AppliedUnique(rows, writes, n - 1, source);
      StepRows(Applied(rows, writes, n - 1, source), writes[n - 1], source);
    }
  }

  /** Other sources' rows, with their ids, are never touched. */
  lemma {:induction false} AppliedOthers(rows: map<int, Row>, writes: seq<Write>, n: nat, source: string, id: int)
    requires n <= |writes| && Unique(rows)
    ensures id in rows && rows[id].source != source ==>
      id in Applied(rows, writes, n, source).rows && Applied(rows, writes, n, source).rows[id] == rows[id]
    ensures var d := Applied(rows, writes, n, source);
            id in d.rows && d.rows[id].source != source ==> id in rows && d.rows[id] == rows[id]
  {
    hide Step, Unique;
    if n > 0 {
      AppliedUnique(rows, writes, n - 1, source);
      AppliedOthers(rows, writes, n - 1, source, id);
      StepRows(Applied(rows, writes, n - 1, source), writes[n - 1], source);
    }
  }

  /** A touched property reads what the replay gives; an untouched one reads as before. */
  lemma {:induction false} AppliedReads(
    rows: map<int, Row>, writes: seq<Write>, n: nat, source: string, s: Subject, k: string)
    requires n <= |writes| && Unique(rows)
    ensures Look(Applied(rows, writes, n, source).rows, s, k, source)
         == if Touched(writes, n, s, k) then Replay(writes, n, s, k) else Look(rows, s, k, source)
    ensures !Touched(writes, n, s, k) ==> Replay(writes, n, s, k) == None
  {
    hide Step, Unique, Look, Touched;
    if n > 0 {
      var d, w := Applied(rows, writes, n - 1, source), writes[n - 1];
      AppliedUnique(rows, writes, n - 1, source);
      AppliedReads(rows, writes, n - 1, source, s, k);
      TouchedStep(writes, n, s, k);
      if w.subject == s && w.key == k {
        StepReads(d, w, source);
      } else {
        StepElsewhere(d, w, source, s, k);
      }
    } else {
      NoneTouched(writes, s, k);
    }
  }

  lemma NoneTouched(writes: seq<Write>, s: Subject, k: string)
    ensures !Touched(writes, 0, s, k)
  {
  }

  lemma TouchedStep(writes: seq<Write>, n: nat, s: Subject, k: string)
    requires 0 < n <= |writes|
    ensures Touched(writes, n, s, k)
       <==> Touched(writes, n - 1, s, k) || (writes[n - 1].subject == s && writes[n - 1].key == k)
  {
    if Touched(writes, n, s, k) {
      var i :| 0 <= i < n && writes[i].subject == s && writes[i].key == k;
      if i < n - 1 { assert Touched(writes, n - 1, s, k); }
    }
  }

  /** What the replay declares has a kept row. */
  lemma {:induction false} DeclaredKept(
    rows: map<int, Row>, writes: seq<Write>, n: nat, source: string, s: Subject, k: string)
    requires n <= |writes| && Unique(rows) && Replay(writes, n, s, k).Some?
    ensures var d := Applied(rows, writes, n, source);
            Stored(d.rows, s, k, source) && IdOf(d.rows, s, k, source) in d.kept
  {
    hide Step, Unique, Stored;
    var d, w := Applied(rows, writes, n - 1, source), writes[n - 1];
    AppliedUnique(rows, writes, n - 1, source);
    if w.subject == s && w.key == k {
      StepReads(d, w, source);
    } else {
      DeclaredKept(rows, writes, n - 1, source, s, k);
      StepElsewhere(d, w, source, s, k);
      StepMarks(d, w, source);
    }
  }

  /** A kept row is one the list touched. */
  lemma {:induction false} KeptTouched(rows: map<int, Row>, writes: seq<Write>, n: nat, source: string, id: int)
    requires n <= |writes| && Unique(rows)
    requires id in Applied(rows, writes, n, source).kept && id in Applied(rows, writes, n, source).rows
    ensures var r := Applied(rows, writes, n, source).rows[id];
            r.source == source && Touched(writes, n, r.subject, r.key)
  {
    hide Step, Unique, Touched;
    var d, w := Applied(rows, writes, n - 1, source), writes[n - 1];
    var r := Applied(rows, writes, n, source).rows[id];
    AppliedUnique(rows, writes, n - 1, source);
    StepKept(d, w, source, id);
    TouchedStep(writes, n, r.subject, r.key);
    if !Matches(r, w.subject, w.key, source) {
      KeptTouched(rows, writes, n - 1, source, id);
    }
  }

  lemma SweptUnique(d: Diff, source: string)
    requires Unique(d.rows)
    ensures Unique(Swept(d, source).rows)
  {
  }

  /**
   After a diff the source's properties are exactly the declared list replayed from empty, whatever was
   stored before.
   */
  lemma DiffReplaces(rows: map<int, Row>, writes: seq<Write>, source: string, s: Subject, k: string)
    requires Unique(rows)
    ensures Unique(Diffed(rows, writes, source).rows)
    ensures Look(Diffed(rows, writes, source).rows, s, k, source) == Replay(writes, |writes|, s, k)
  {
    hide Step, Unique, Applied, Touched, Stored;
    var d := Applied(rows, writes, |writes|, source);
    var final := Diffed(rows, writes, source).rows;
    AppliedUnique(rows, writes, |writes|, source);
    SweptUnique(d, source);
    AppliedReads(rows, writes, |writes|, source, s, k);
    if Replay(writes, |writes|, s, k).Some? {
      DeclaredKept(rows, writes, |writes|, source, s, k);
      var id := IdOf(d.rows, s, k, source);
      assert id in final && final[id] == d.rows[id];
      LookAt(final, id);
      LookAt(d.rows, id);
    } else {
      forall id | id in final ensures !Matches(final[id], s, k, source) {
        if Matches(final[id], s, k, source) {
          KeptTouched(rows, writes, |writes|, source, id);
          LookAt(d.rows, id);
          assert false;
        }
      }
      NotStoredHidden(final, s, k, source);
    }
  }

  lemma NotStoredHidden(rows: map<int, Row>, s: Subject, k: string, source: string)
    requires forall id :: id in rows ==> !Matches(rows[id], s, k, source)
    ensures Look(rows, s, k, source) == None
  {
  }

  /** Rows of other sources keep their ids and contents, and none is added. */
  lemma DiffKeepsOtherSources(rows: map<int, Row>, writes: seq<Write>, source: string, id: int)
    requires Unique(rows)
    ensures (id in rows && rows[id].source != source)
       <==> (id in Diffed(rows, writes, source).rows && Diffed(rows, writes, source).rows[id].source != source)
    ensures id in rows && rows[id].source != source ==> Diffed(rows, writes, source).rows[id] == rows[id]
  {
    hide Step, Unique, Applied;
    AppliedOthers(rows, writes, |writes|, source, id);
  }

  // ---- Marking ----

  ghost predicate Differs(rows: map<int, Row>, rows': map<int, Row>, source: string, s: Subject, k: string) {
    Look(rows, s, k, source) != Look(rows', s, k, source)
  }

  lemma {:induction false} ChangeMarks(
    rows: map<int, Row>, writes: seq<Write>, n: nat, source: string, s: Subject, k: string)
    requires n <= |writes| && Unique(rows) && Differs(rows, Applied(rows, writes, n, source).rows, source, s, k)
    ensures s in Applied(rows, writes, n, source).dirty
    ensures k == "icon" ==> s in Applied(rows, writes, n, source).iconDirty
  {
    hide Step, Unique, Look;
    if n > 0 {
      var d, w := Applied(rows, writes, n - 1, source), writes[n - 1];
      AppliedUnique(rows, writes, n - 1, source);
      StepMarks(d, w, source);
      if w.subject == s && w.key == k {
        StepReads(d, w, source);
      } else {
        StepElsewhere(d, w, source, s, k);
      }
      if Differs(rows, d.rows, source, s, k) {
        ChangeMarks(rows, writes, n - 1, source, s, k);
      }
    }
  }

  /** The rows the sweep removes: those the source had before and the list does not name. */
  lemma StaleIff(rows: map<int, Row>, writes: seq<Write>, source: string, id: int)
    requires Unique(rows) && id in Applied(rows, writes, |writes|, source).rows
    requires Applied(rows, writes, |writes|, source).rows[id].source == source
    ensures var d := Applied(rows, writes, |writes|, source); var r := d.rows[id];
            (Stale(d, id, source) <==> !Touched(writes, |writes|, r.subject, r.key))
  {
    hide Step, Unique, Applied, Touched, Stored, Look;
    var d := Applied(rows, writes, |writes|, source);
    var r := d.rows[id];
    AppliedUnique(rows, writes, |writes|, source);
    LookAt(d.rows, id);
    AppliedReads(rows, writes, |writes|, source, r.subject, r.key);
    if id in d.kept {
      KeptTouched(rows, writes, |writes|, source, id);
    } else if Touched(writes, |writes|, r.subject, r.key) {
      DeclaredKept(rows, writes, |writes|, source, r.subject, r.key);
      assert false;
    }
  }

  /** Every subject with a property that differs before and after is marked, written or swept. */
  lemma MarksComplete(rows: map<int, Row>, writes: seq<Write>, source: string, s: Subject, k: string)
    requires Unique(rows) && Differs(rows, Diffed(rows, writes, source).rows, source, s, k)
    ensures s in Diffed(rows, writes, source).dirty
  {
    hide Step, Unique, Applied, Look;
    var d := Applied(rows, writes, |writes|, source);
    AppliedUnique(rows, writes, |writes|, source);
    if Differs(rows, d.rows, source, s, k) {
      ChangeMarks(rows, writes, |writes|, source, s, k);
    } else {
      SweepChanges(d, source, s, k);
    }
  }

  lemma SweepChanges(d: Diff, source: string, s: Subject, k: string)
    requires Unique(d.rows) && Differs(d.rows, Swept(d, source).rows, source, s, k)
    ensures s in Swept(d, source).dirty
  {
    if Stored(d.rows, s, k, source) {
      var id := IdOf(d.rows, s, k, source);
      if !Stale(d, id, source) {
        SweptUnique(d, source);
        LookAt(Swept(d, source).rows, id);
        assert false;
      }
      assert d.rows[id].subject in Swept(d, source).dirty;
    } else {
      NotStored(Swept(d, source).rows, s, k, source);
      assert false;
    }
  }

  /** No property is named twice. */
  ghost predicate DuplicateFree(writes: seq<Write>) {
    forall i, j :: 0 <= i < j < |writes| ==> !(writes[i].subject == writes[j].subject && writes[i].key == writes[j].key)
  }

  lemma {:induction false} ReplayOnce(writes: seq<Write>, n: nat, i: int)
    requires 0 <= i < n <= |writes| && DuplicateFree(writes)
    ensures Replay(writes, n, writes[i].subject, writes[i].key) == writes[i].value
  {
    if i < n - 1 {
      ReplayOnce(writes, n - 1, i);
    }
  }

  /** A mark set by a write is a change, if nothing is named twice. */
  lemma {:induction false} MarkedChanged(
    rows: map<int, Row>, writes: seq<Write>, n: nat, source: string, s: Subject) returns (i: int)
    requires n <= |writes| && Unique(rows) && DuplicateFree(writes)
    requires s in Applied(rows, writes, n, source).dirty
    ensures 0 <= i < n && writes[i].subject == s && Look(rows, s, writes[i].key, source) != writes[i].value
  {
    hide Step, Unique, Look, Touched, DuplicateFree;
    var d, w := Applied(rows, writes, n - 1, source), writes[n - 1];
    AppliedUnique(rows, writes, n - 1, source);
    StepMarks(d, w, source);
    if s in d.dirty {
      i := MarkedChanged(rows, writes, n - 1, source, s);
    } else {
      i := n - 1;
      AppliedReads(rows, writes, n - 1, source, s, w.key);
      NotTouchedBefore(writes, n - 1);
    }
  }

  lemma {:induction false} IconMarkedChanged(
    rows: map<int, Row>, writes: seq<Write>, n: nat, source: string, s: Subject) returns (i: int)
    requires n <= |writes| && Unique(rows) && DuplicateFree(writes)
    requires s in Applied(rows, writes, n, source).iconDirty
    ensures 0 <= i < n && writes[i].subject == s && writes[i].key == "icon"
      && Look(rows, s, "icon", source) != writes[i].value
  {
    hide Step, Unique, Look, Touched, DuplicateFree;
    var d, w := Applied(rows, writes, n - 1, source), writes[n - 1];
    AppliedUnique(rows, writes, n - 1, source);
    StepMarks(d, w, source);
    if s in d.iconDirty {
      i := IconMarkedChanged(rows, writes, n - 1, source, s);
    } else {
      i := n - 1;
      AppliedReads(rows, writes, n - 1, source, s, w.key);
      NotTouchedBefore(writes, n - 1);
    }
  }

  lemma NotTouchedBefore(writes: seq<Write>, n: nat)
    requires n < |writes| && DuplicateFree(writes)
    ensures !Touched(writes, n, writes[n].subject, writes[n].key)
  {
  }

  ghost predicate SomeDiffers(rows: map<int, Row>, rows': map<int, Row>, source: string, s: Subject) {
    exists k :: Differs(rows, rows', source, s, k)
  }

  /** With nothing named twice, the subjects marked are exactly those with a property that differs. */
  lemma MarksExactIff(rows: map<int, Row>, writes: seq<Write>, source: string, s: Subject)
    requires Unique(rows) && DuplicateFree(writes)
    ensures s in Diffed(rows, writes, source).dirty <==> SomeDiffers(rows, Diffed(rows, writes, source).rows, source, s)
  {
    hide Step, Unique, Applied, Look, DuplicateFree, Touched;
    var d, final := Applied(rows, writes, |writes|, source), Diffed(rows, writes, source);
    if SomeDiffers(rows, final.rows, source, s) {
      var k :| Differs(rows, final.rows, source, s, k);
      MarksComplete(rows, writes, source, s, k);
    }
    if s in d.dirty {
      var i := MarkedChanged(rows, writes, |writes|, source, s);
      ReplayOnce(writes, |writes|, i);
      DiffReplaces(rows, writes, source, s, writes[i].key);
      assert Differs(rows, final.rows, source, s, writes[i].key);
    } else if s in final.dirty {
      var id :| id in d.rows && Stale(d, id, source) && d.rows[id].subject == s;
      SweptDiffers(rows, writes, source, id);
    }
  }

  /** A swept row is a property that differs. */
  lemma SweptDiffers(rows: map<int, Row>, writes: seq<Write>, source: string, id: int)
    requires Unique(rows) && id in Applied(rows, writes, |writes|, source).rows
    requires Stale(Applied(rows, writes, |writes|, source), id, source)
    ensures var r := Applied(rows, writes, |writes|, source).rows[id];
            Differs(rows, Diffed(rows, writes, source).rows, source, r.subject, r.key)
  {
    hide Step, Unique, Applied, Look, Touched;
    var d := Applied(rows, writes, |writes|, source);
    var r := d.rows[id];
    AppliedUnique(rows, writes, |writes|, source);
    StaleIff(rows, writes, source, id);
    LookAt(d.rows, id);
    AppliedReads(rows, writes, |writes|, source, r.subject, r.key);
    DiffReplaces(rows, writes, source, r.subject, r.key);
  }

  /** Running the same list again marks nobody. */
  lemma SecondDiffMarksNobody(rows: map<int, Row>, writes: seq<Write>, source: string)
    requires Unique(rows) && DuplicateFree(writes)
    ensures Diffed(Diffed(rows, writes, source).rows, writes, source).dirty == {}
    ensures Diffed(Diffed(rows, writes, source).rows, writes, source).iconDirty == {}
  {
    hide Step, Unique, Applied, Look, DuplicateFree, Swept, SomeDiffers;
    var once := Diffed(rows, writes, source).rows;
    var twice := Diffed(once, writes, source);
    assert Unique(once) by { DiffUnique(rows, writes, source); }
    forall s | s in twice.dirty ensures false {
      MarksExactIff(once, writes, source, s);
      SameSourceRows(rows, writes, source, s);
    }
    forall s | s in twice.iconDirty ensures false {
      IconSwept(once, writes, source);
      var i := IconMarkedChanged(once, writes, |writes|, source, s);
      ReplayOnce(writes, |writes|, i);
      DiffReplaces(rows, writes, source, s, "icon");
    }
  }

  lemma DiffUnique(rows: map<int, Row>, writes: seq<Write>, source: string)
    requires Unique(rows)
    ensures Unique(Diffed(rows, writes, source).rows)
  {
    hide Applied, Unique;
    AppliedUnique(rows, writes, |writes|, source);
    SweptUnique(Applied(rows, writes, |writes|, source), source);
  }

  lemma IconSwept(rows: map<int, Row>, writes: seq<Write>, source: string)
    ensures Diffed(rows, writes, source).iconDirty == Applied(rows, writes, |writes|, source).iconDirty
  {
    hide Applied;
  }

  lemma SameSourceRows(rows: map<int, Row>, writes: seq<Write>, source: string, s: Subject)
    requires Unique(rows)
    ensures var once := Diffed(rows, writes, source).rows;
            !SomeDiffers(once, Diffed(once, writes, source).rows, source, s)
  {
    hide Applied, Unique, Look, Diffed;
    var once := Diffed(rows, writes, source).rows;
    DiffReplaces(rows, writes, source, s, "");
    forall k ensures !Differs(once, Diffed(once, writes, source).rows, source, s, k) {
      DiffReplaces(rows, writes, source, s, k);
      DiffReplaces(once, writes, source, s, k);
    }
  }

  /**
   Icons are marked only by writes: with nothing named twice, a subject is marked exactly when its icon
   differs and the list names it. An icon lost to the sweep is not marked.
   */
  lemma IconMarkedIff(rows: map<int, Row>, writes: seq<Write>, source: string, s: Subject)
    requires Unique(rows) && DuplicateFree(writes)
    ensures s in Diffed(rows, writes, source).iconDirty
       <==> Touched(writes, |writes|, s, "icon") && Differs(rows, Diffed(rows, writes, source).rows, source, s, "icon")
  {
    hide Step, Unique, Applied, Look, DuplicateFree;
    var d := Applied(rows, writes, |writes|, source);
    IconSwept(rows, writes, source);
    DiffReplaces(rows, writes, source, s, "icon");
    AppliedReads(rows, writes, |writes|, source, s, "icon");
    if s in d.iconDirty {
      var i := IconMarkedChanged(rows, writes, |writes|, source, s);
      ReplayOnce(writes, |writes|, i);
    } else if Touched(writes, |writes|, s, "icon") && Differs(rows, d.rows, source, s, "icon") {
      ChangeMarks(rows, writes, |writes|, source, s, "icon");
    }
  }

  /** An account whose icon is no longer declared: the row goes, and no icon is marked. */
  lemma SweptIconUnmarked()
    ensures var rows, alice := map[1 := Row(Account("alice"), "icon", "cat.png", "list")], Account("alice");
            Unique(rows) && Differs(rows, Diffed(rows, [], "list").rows, "list", alice, "icon")
            && alice !in Diffed(rows, [], "list").iconDirty
  {
    var rows := map[1 := Row(Account("alice"), "icon", "cat.png", "list")];
    LookAt(rows, 1);
    DiffReplaces(rows, [], "list", Account("alice"), "icon");
  }

  // ---- The table and its loops ----

  /** One entry's properties as writes. */
  function WritesOf(s: Subject, props: seq<Prop>, n: nat): seq<Write>
    requires n <= |props|
  {
    if n == 0 then [] else WritesOf(s, props, n - 1) + [Write(s, props[n - 1].key, props[n - 1].value)]
  }

  /** A declared list as writes, entry by entry. */
  function Flatten(entries: seq<Entry>, n: nat): seq<Write>
    requires n <= |entries|
  {
    if n == 0 then []
    else
      var e := entries[n - 1];
      Flatten(entries, n - 1) + if e.subject.Some? then WritesOf(e.subject.value, e.props, |e.props|) else []
  }

  // ---- The declared list, without the writes ----

  /** Property `j` of entry `i` is property `k` of subject `s`. */
  predicate Names(entries: seq<Entry>, i: int, j: int, s: Subject, k: string) {
    0 <= i < |entries| && 0 <= j < |entries[i].props|
    && entries[i].subject == Some(s) && entries[i].props[j].key == k
  }

  function ValueAt(entries: seq<Entry>, i: int, j: int): Option<string> {
    if 0 <= i < |entries| && 0 <= j < |entries[i].props| then entries[i].props[j].value else None
  }

  /** It is so among the first `n` entries and the first `m` properties of the next. */
  predicate NamesBefore(entries: seq<Entry>, n: int, m: int, i: int, j: int, s: Subject, k: string) {
    Names(entries, i, j, s, k) && (i < n || (i == n && j < m))
  }

  ghost predicate LastBefore(entries: seq<Entry>, n: int, m: int, i: int, j: int, s: Subject, k: string) {
    NamesBefore(entries, n, m, i, j, s, k)
    && forall i', j' :: NamesBefore(entries, n, m, i', j', s, k) ==> i' < i || (i' == i && j' <= j)
  }

  /** `v` is the value at the last naming, or none where there is no naming. */
  ghost predicate Declares(entries: seq<Entry>, n: int, m: int, s: Subject, k: string, v: Option<string>) {
    (exists i, j :: LastBefore(entries, n, m, i, j, s, k) && ValueAt(entries, i, j) == v)
    || (v == None && forall i, j :: !NamesBefore(entries, n, m, i, j, s, k))
  }

  /** The last property of all that names `k` of `s`, in the order of entries and then of properties. */
  ghost predicate LastNaming(entries: seq<Entry>, i: int, j: int, s: Subject, k: string) {
    Names(entries, i, j, s, k)
    && forall i', j' :: Names(entries, i', j', s, k) ==> i' < i || (i' == i && j' <= j)
  }

  ghost predicate NotNamed(entries: seq<Entry>, s: Subject, k: string) {
    forall i, j :: !Names(entries, i, j, s, k)
  }

  lemma SameNamings(
    entries: seq<Entry>, n: int, m: int, n': int, m': int, s: Subject, k: string, v: Option<string>)
    requires forall i, j :: NamesBefore(entries, n, m, i, j, s, k) <==> NamesBefore(entries, n', m', i, j, s, k)
    requires Declares(entries, n, m, s, k, v)
    ensures Declares(entries, n', m', s, k, v)
  {
    hide NamesBefore;
    if i, j :| LastBefore(entries, n, m, i, j, s, k) && ValueAt(entries, i, j) == v {
      assert LastBefore(entries, n', m', i, j, s, k);
    }
  }

  lemma NextNamed(entries: seq<Entry>, n: int, m: int, s: Subject, k: string)
    requires Names(entries, n, m, s, k)
    ensures Declares(entries, n, m + 1, s, k, ValueAt(entries, n, m))
  {
    assert LastBefore(entries, n, m + 1, n, m, s, k);
  }

  lemma {:induction false} PropsDeclare(entries: seq<Entry>, n: int, m: int, before: seq<Write>, s: Subject, k: string)
    requires 0 <= n < |entries| && entries[n].subject.Some? && 0 <= m <= |entries[n].props|
    requires Declares(entries, n, 0, s, k, Replay(before, |before|, s, k))
    ensures var writes := before + WritesOf(entries[n].subject.value, entries[n].props, m);
            Declares(entries, n, m, s, k, Replay(writes, |writes|, s, k))
    decreases m
  {
    hide Declares;
    var t, props := entries[n].subject.value, entries[n].props;
    if m == 0 {
      assert before + WritesOf(t, props, 0) == before;
    } else {
      PropsDeclare(entries, n, m - 1, before, s, k);
      var done, w := before + WritesOf(t, props, m - 1), Write(t, props[m - 1].key, props[m - 1].value);
      assert before + WritesOf(t, props, m) == done + [w];
      ReplayOneMore(done, w, s, k);
      if Names(entries, n, m - 1, s, k) {
        NextNamed(entries, n, m - 1, s, k);
      } else {
        SameNamings(entries, n, m - 1, n, m, s, k, Replay(done, |done|, s, k));
      }
    }
  }

  lemma {:induction false} ReplayPrefix(writes: seq<Write>, w: Write, n: nat, s: Subject, k: string)
    requires n <= |writes|
    ensures Replay(writes + [w], n, s, k) == Replay(writes, n, s, k)
  {
    if n > 0 {
      ReplayPrefix(writes, w, n - 1, s, k);
    }
  }

  lemma ReplayOneMore(writes: seq<Write>, w: Write, s: Subject, k: string)
    ensures Replay(writes + [w], |writes| + 1, s, k)
         == if w.subject == s && w.key == k then w.value else Replay(writes, |writes|, s, k)
  {
    ReplayPrefix(writes, w, |writes|, s, k);
  }

  /** Replaying the writes of the first entries gives what those entries declare. */
  lemma {:induction false} FlattenDeclares(entries: seq<Entry>, n: nat, s: Subject, k: string)
    requires n <= |entries|
    ensures Declares(entries, n, 0, s, k, Replay(Flatten(entries, n), |Flatten(entries, n)|, s, k))
  {
    hide Declares;
    if n == 0 {
      NothingDeclared(entries, s, k);
    } else {
      var e, before, after := entries[n - 1], Flatten(entries, n - 1), Flatten(entries, n);
      FlattenDeclares(entries, n - 1, s, k);
      if e.subject.Some? {
        PropsDeclare(entries, n - 1, |e.props|, before, s, k);
        SameNamings(entries, n - 1, |e.props|, n, 0, s, k, Replay(after, |after|, s, k));
      } else {
        assert after == before;
        SameNamings(entries, n - 1, 0, n, 0, s, k, Replay(after, |after|, s, k));
      }
    }
  }

  lemma NothingDeclared(entries: seq<Entry>, s: Subject, k: string)
    ensures Declares(entries, 0, 0, s, k, None)
  {
  }

  /**
   What a diff leaves, told from the entries: each property named has the value of the last naming, and a
   property of the source that none names is gone.
   */
  lemma DiffDeclares(rows: map<int, Row>, entries: seq<Entry>, source: string, s: Subject, k: string)
    requires Unique(rows)
    ensures var after := Diffed(rows, Flatten(entries, |entries|), source).rows;
            (forall i, j :: LastNaming(entries, i, j, s, k) ==>
               Look(after, s, k, source) == ValueAt(entries, i, j))
            && (NotNamed(entries, s, k) ==> Look(after, s, k, source) == None)
  {
    hide Unique, Look, Diffed;
    DiffReplaces(rows, Flatten(entries, |entries|), source, s, k);
    FlattenDeclares(entries, |entries|, s, k);
    LastIsDeclared(entries, s, k, Look(Diffed(rows, Flatten(entries, |entries|), source).rows, s, k, source));
  }

  lemma LastIsDeclared(entries: seq<Entry>, s: Subject, k: string, v: Option<string>)
    requires Declares(entries, |entries|, 0, s, k, v)
    ensures forall i, j :: LastNaming(entries, i, j, s, k) ==> v == ValueAt(entries, i, j)
    ensures NotNamed(entries, s, k) ==> v == None
  {
    forall i, j | LastNaming(entries, i, j, s, k) ensures v == ValueAt(entries, i, j) {
      assert NamesBefore(entries, |entries|, 0, i, j, s, k);
      var i', j' :| LastBefore(entries, |entries|, 0, i', j', s, k) && ValueAt(entries, i', j') == v;
      assert Names(entries, i', j', s, k);
    }
    if NotNamed(entries, s, k) {
      forall i, j ensures !NamesBefore(entries, |entries|, 0, i, j, s, k) {
        assert !Names(entries, i, j, s, k);
      }
    }
  }

  // ---- The writes, one after the other ----

  lemma {:induction false} AppliedPrefix(rows: map<int, Row>, writes: seq<Write>, w: Write, n: nat, source: string)
    requires n <= |writes|
    ensures Applied(rows, writes + [w], n, source) == Applied(rows, writes, n, source)
  {
    hide Step;
    if n > 0 {
      AppliedPrefix(rows, writes, w, n - 1, source);
    }
  }

  ghost function AppliedAll(rows: map<int, Row>, writes: seq<Write>, source: string): Diff {
    Applied(rows, writes, |writes|, source)
  }

  lemma AppliedOneMore(rows: map<int, Row>, writes: seq<Write>, w: Write, source: string)
    ensures AppliedAll(rows, writes + [w], source) == Step(AppliedAll(rows, writes, source), w, source)
  {
    hide Step;
    AppliedPrefix(rows, writes, w, |writes|, source);
  }

  function WithoutAll(rows: map<int, Row>, ids: seq<int>): map<int, Row> {
    map id | id in rows && id !in ids :: rows[id]
  }

  lemma WithoutMore(rows: map<int, Row>, ids: seq<int>, n: int, m: int)
    requires 0 <= n <= m <= |ids|
    ensures WithoutAll(WithoutAll(rows, ids[..n]), ids[n..m]) == WithoutAll(rows, ids[..m])
  {
    assert ids[..m] == ids[..n] + ids[n..m];
  }

  /** The stale ids among the first `n`, and their subjects. */
  function StaleIds(d: Diff, ids: seq<int>, n: int, source: string): seq<int>
    requires 0 <= n <= |ids|
  {
    if n == 0 then []
    else StaleIds(d, ids, n - 1, source) + if Stale(d, ids[n - 1], source) then [ids[n - 1]] else []
  }

  function Affected(d: Diff, ids: seq<int>, n: int, source: string): set<Subject>
    requires 0 <= n <= |ids|
  {
    if n == 0 then {}
    else Affected(d, ids, n - 1, source) + if Stale(d, ids[n - 1], source) then {d.rows[ids[n - 1]].subject} else {}
  }

  lemma {:induction false} ScannedIff(d: Diff, ids: seq<int>, n: int, source: string, id: int)
    requires 0 <= n <= |ids|
    ensures id in StaleIds(d, ids, n, source) <==> Stale(d, id, source) && id in ids[..n]
  {
    hide Stale;
    if n > 0 {
      ScannedIff(d, ids, n - 1, source, id);
      assert ids[..n] == ids[..n - 1] + [ids[n - 1]];
    }
  }

  lemma {:induction false} AffectedIff(d: Diff, ids: seq<int>, n: int, source: string, s: Subject)
    requires 0 <= n <= |ids|
    ensures s in Affected(d, ids, n, source)
       <==> exists i :: 0 <= i < n && Stale(d, ids[i], source) && d.rows[ids[i]].subject == s
  {
    if n > 0 {
      AffectedIff(d, ids, n - 1, source, s);
    }
  }

  /** Scanning all rows and deleting what is stale is the sweep. */
  lemma SweptIsScanned(d: Diff, ids: seq<int>, source: string)
    requires forall id :: id in ids <==> id in d.rows.Keys
    ensures Swept(d, source).rows == WithoutAll(d.rows, StaleIds(d, ids, |ids|, source))
    ensures Swept(d, source).dirty == d.dirty + Affected(d, ids, |ids|, source)
  {
    assert ids[..|ids|] == ids;
    var stale, affected := StaleIds(d, ids, |ids|, source), Affected(d, ids, |ids|, source);
    forall id | id in d.rows ensures id in stale <==> Stale(d, id, source) {
      ScannedIff(d, ids, |ids|, source, id);
    }
    forall s ensures s in affected <==> exists id :: id in d.rows && Stale(d, id, source) && d.rows[id].subject == s {
      AffectedIs(d, ids, source, s);
    }
  }

  lemma AffectedIs(d: Diff, ids: seq<int>, source: string, s: Subject)
    requires forall id :: id in ids <==> id in d.rows.Keys
    ensures s in Affected(d, ids, |ids|, source)
       <==> exists id :: id in d.rows && Stale(d, id, source) && d.rows[id].subject == s
  {
    AffectedIff(d, ids, |ids|, source, s);
    if id :| id in d.rows && Stale(d, id, source) && d.rows[id].subject == s {
      assert id in ids;
    }
  }

  class PropTable {
    var rows: map<int, Row>

    constructor ()
      ensures rows == map[]
    {
      rows := map[];
    }

    method ReadOne(s: Subject, k: string, source: string) returns (id: Option<int>)
      ensures id == if Stored(rows, s, k, source) then id else None
      ensures Stored(rows, s, k, source) ==> id.Some? && id.value in rows && Matches(rows[id.value], s, k, source)
    {
      if candidate :| candidate in rows && Matches(rows[candidate], s, k, source) {
        return Some(candidate);
      }
      return None;
    }

    /** One property; says which id stays live, if any, and whether anything changed. */
    method ApplyProp(w: Write, source: string, ghost d: Diff) returns (kept: set<int>, changed: bool)
      requires d.rows == rows && Unique(rows)
      modifies this
      ensures var d' := Step(d, w, source);
              rows == d'.rows && Unique(rows) && d'.kept == d.kept + kept
              && d'.dirty == d.dirty + (if changed then {w.subject} else {})
              && d'.iconDirty == d.iconDirty + (if changed && w.key == "icon" then {w.subject} else {})
    {
      StepRows(d, w, source);
      kept, changed := {}, false;
      var existing := ReadOne(w.subject, w.key, source);
      if existing.Some? {
        LookAt(rows, existing.value);
      }
      if w.value.None? {
        if existing.Some? {
          rows := Without(rows, existing.value);
          changed := true;
        }
      } else if existing.None? {
        var id := NewId(rows);
        rows := rows[id := Row(w.subject, w.key, w.value.value, source)];
        kept, changed := {id}, true;
      } else {
        kept := {existing.value};
        if rows[existing.value].value != w.value.value {
          rows := rows[existing.value := rows[existing.value].(value := w.value.value)];
          changed := true;
        }
      }
    }

    /** One subject's properties, after the writes of the entries `before` it. */
    method ApplyProps(
      s: Subject, props: seq<Prop>, source: string, ghost start: map<int, Row>, ghost before: seq<Write>)
      returns (keptIds: set<int>, changed: bool, iconChanged: bool)
      requires Unique(rows) && rows == AppliedAll(start, before, source).rows
      modifies this
      ensures var d := AppliedAll(start, before, source);
              var d' := AppliedAll(start, before + WritesOf(s, props, |props|), source);
              rows == d'.rows && Unique(rows) && d'.kept == d.kept + keptIds
              && d'.dirty == d.dirty + (if changed then {s} else {})
              && d'.iconDirty == d.iconDirty + (if iconChanged then {s} else {})
    {
      hide Step, Unique, AppliedAll;
      keptIds, changed, iconChanged := {}, false, false;
      ghost var d := AppliedAll(start, before, source);
      assert before + WritesOf(s, props, 0) == before;
      for i := 0 to |props|
        invariant Unique(rows)
        invariant var d' := AppliedAll(start, before + WritesOf(s, props, i), source);
                  rows == d'.rows && d'.kept == d.kept + keptIds
                  && d'.dirty == d.dirty + (if changed then {s} else {})
                  && d'.iconDirty == d.iconDirty + (if iconChanged then {s} else {})
      {
        var w := Write(s, props[i].key, props[i].value);
        ghost var done := before + WritesOf(s, props, i);
        AppliedOneMore(start, done, w, source);
        assert before + WritesOf(s, props, i + 1) == done + [w];
        var kept, now := ApplyProp(w, source, AppliedAll(start, done, source));
        keptIds := keptIds + kept;
        if now {
          changed := true;
          if w.key == "icon" {
            iconChanged := true;
          }
        }
      }
    }

    method ScanStale(
      ids: seq<int>, keptIds: set<int>, source: string, ghost d: Diff)
      returns (staleIds: seq<int>, affected: set<Subject>)
      requires d.rows == rows && d.kept == keptIds && forall i :: 0 <= i < |ids| ==> ids[i] in rows
      ensures staleIds == StaleIds(d, ids, |ids|, source) && affected == Affected(d, ids, |ids|, source)
    {
      staleIds, affected := [], {};
      for i := 0 to |ids|
        invariant staleIds == StaleIds(d, ids, i, source) && affected == Affected(d, ids, i, source)
      {
        var row := rows[ids[i]];
        if row.source == source && ids[i] !in keptIds {
          staleIds := staleIds + [ids[i]];
          affected := affected + {row.subject};
        }
      }
    }

    /** Deletes in slices of `size` ids. */
    method DeleteMany(ids: seq<int>, size: int)
      requires size > 0
      modifies this
      ensures rows == WithoutAll(old(rows), ids)
    {
      var n := 0;
      assert rows == WithoutAll(rows, ids[..0]);
      while n < |ids|
        invariant 0 <= n <= |ids|
        invariant rows == WithoutAll(old(rows), ids[..n])
        decreases |ids| - n
      {
        var m := if n + size < |ids| then n + size else |ids|;
        WithoutMore(old(rows), ids, n, m);
        rows := WithoutAll(rows, ids[n..m]);
        n := m;
      }
      assert ids[..n] == ids;
    }

    method SweepStaleProps(keptIds: set<int>, source: string, size: int, ghost d: Diff) returns (affected: set<Subject>)
      requires size > 0 && d.rows == rows && d.kept == keptIds
      modifies this
      ensures rows == Swept(d, source).rows && Swept(d, source).dirty == d.dirty + affected
    {
      hide Stale, Swept;
      var ids := AscendingKeys(rows.Keys);
      var staleIds: seq<int>;
      assert forall i :: 0 <= i < |ids| ==> ids[i] in ids;
      staleIds, affected := ScanStale(ids, keptIds, source, d);
      DeleteMany(staleIds, size);
      SweptIsScanned(d, ids, source);
    }

    /** The declared list diffed in chunks of `size` entries: the chunks make no difference. */
    method DiffMulti(
      entries: seq<Entry>, source: string, size: int) returns (dirty: set<Subject>, iconDirty: set<Subject>)
      requires size > 0 && Unique(rows)
      modifies this
      ensures var d := Diffed(old(rows), Flatten(entries, |entries|), source);
              rows == d.rows && dirty == d.dirty && iconDirty == d.iconDirty
      ensures forall s, k, i, j :: LastNaming(entries, i, j, s, k) ==>
                Look(rows, s, k, source) == ValueAt(entries, i, j)
      ensures forall s, k :: NotNamed(entries, s, k) ==> Look(rows, s, k, source) == None
    {
      hide Step, Unique, Applied, Swept, Look, LastNaming, NotNamed;
      var keptIds: set<int> := {};
      dirty, iconDirty := {}, {};
      ghost var start := rows;
      assert AppliedAll(start, [], source) == Diff(start, {}, {}, {}) by { AppliedNone(start, source); }
      var i := 0;
      while i < |entries|
        invariant 0 <= i <= |entries| && Unique(rows)
        invariant AppliedAll(start, Flatten(entries, i), source) == Diff(rows, keptIds, dirty, iconDirty)
        decreases |entries| - i
      {
        var end := if i + size < |entries| then i + size else |entries|;
        for j := i to end
          invariant Unique(rows)
          invariant AppliedAll(start, Flatten(entries, j), source) == Diff(rows, keptIds, dirty, iconDirty)
        {
          if entries[j].subject.Some? {
            var subject := entries[j].subject.value;
            var ids, changed, iconChanged := ApplyProps(subject, entries[j].props, source, start, Flatten(entries, j));
            keptIds := keptIds + ids;
            if changed {
              dirty := dirty + {subject};
            }
            if iconChanged {
              iconDirty := iconDirty + {subject};
            }
          } else {
            assert Flatten(entries, j + 1) == Flatten(entries, j);
          }
        }
        i := end;
      }
      var removedFrom := SweepStaleProps(keptIds, source, size, Diff(rows, keptIds, dirty, iconDirty));
      dirty := dirty + removedFrom;
      assert Swept(AppliedAll(start, Flatten(entries, |entries|), source), source).iconDirty == iconDirty by {
        SweptIcons(AppliedAll(start, Flatten(entries, |entries|), source), source);
      }
      forall s, k
        ensures forall i, j :: LastNaming(entries, i, j, s, k) ==>
                  Look(rows, s, k, source) == ValueAt(entries, i, j)
        ensures NotNamed(entries, s, k) ==> Look(rows, s, k, source) == None
      {
        DiffDeclares(start, entries, source, s, k);
      }
    }
  }

  lemma AppliedNone(rows: map<int, Row>, source: string)
    ensures AppliedAll(rows, [], source) == Diff(rows, {}, {}, {})
  {
  }

  lemma SweptIcons(d: Diff, source: string)
    ensures Swept(d, source).iconDirty == d.iconDirty
  {
  }
}
