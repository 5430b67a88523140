/** What a flush under way leaves behind once it is through: exactly which changes,
    creations and failed writes make a clean state whose row is something else. */
module StateSaving {
  import opened StateFlush

  /** What the flush does next, if its write works. */
  function FlushStep(p: Phase): Step
    requires !p.Idle?
  {
    match p
    case Copying(todo, _) => if todo == [] then Write(true) else CopyOne
    case Clearing(todo) => if todo == [] then End else ClearOne
  }

  function StepsLeft(p: Phase): nat {
    match p
    case Idle => 0
    case Copying(todo, copied) => 2 * |todo| + |copied| + 2
    case Clearing(todo) => |todo| + 1
  }

  lemma FlushGoesOn(s: State)
    requires HeldInBounds(s) && !s.phase.Idle?
    ensures Enabled(s, FlushStep(s.phase))
    ensures var r := Next(s, FlushStep(s.phase)); HeldInBounds(r) && StepsLeft(r.phase) < StepsLeft(s.phase)
  {
    if s.phase.Copying? {
      assert forall i | 0 <= i < |s.phase.copied| :: s.phase.copied[i].id in Held(s.phase);
    }
    if s.phase.todo != [] {
      assert s.phase.todo[0] in Held(s.phase);
    }
    HeldShrinks(s, FlushStep(s.phase));
  }

  /** The state when the flush is through, if nothing comes in between. */
  ghost function Finished(s: State): State
    requires HeldInBounds(s)
    decreases StepsLeft(s.phase)
  {
    if s.phase.Idle? then s
    else
      FlushGoesOn(s);
      Finished(Next(s, FlushStep(s.phase)))
  }

  // ----- what a flush leaves behind -----

  function Copies(s: State, ids: seq<nat>): seq<Copy>
    requires forall i | 0 <= i < |ids| :: ids[i] < |s.objects|
  {
    seq(|ids|, i requires 0 <= i < |ids| => Copy(ids[i], s.objects[ids[i]].value))
  }

  /** What the flush is still to write: the copies it has, and those it would make now. */
  ghost function Pending(s: State): (copied: seq<Copy>)
    requires HeldInBounds(s)
    ensures InRange(s, copied)
  {
    match s.phase
    case Copying(todo, copied) =>
      assert forall i | 0 <= i < |todo| :: todo[i] in Held(s.phase);
      assert forall i | 0 <= i < |copied| :: copied[i].id in Held(s.phase);
      copied + Copies(s, todo)
    case _ => []
  }

  /** The key's row, if it holds `row` now, holds v once the flush is through. */
  ghost predicate EndsAs(s: State, key: string, row: Saved, v: Saved)
    requires HeldInBounds(s)
  {
    || (exists i: nat :: i < |Pending(s)| && KeyIs(s, Pending(s)[i].id, key) && Pending(s)[i].value == v)
    || (row == v && forall i: nat | i < |Pending(s)| :: !KeyIs(s, Pending(s)[i].id, key))
  }

  /** The key's state will still be dirty, or its row will hold what it holds. */
  ghost predicate WillAgree(s: State, key: string)
    requires HeldInBounds(s)
  {
    key in s.current && key in s.rows && s.current[key] < |s.objects| ==>
      var c := s.current[key];
      (s.objects[c].dirty && c !in Held(s.phase)) || EndsAs(s, key, s.rows[key], s.objects[c].value)
  }

  lemma PendingMoves(s: State)
    requires HeldInBounds(s) && Enabled(s, CopyOne)
    ensures HeldInBounds(Next(s, CopyOne)) && Pending(Next(s, CopyOne)) == Pending(s)
  {
    FlushGoesOn(s);
    var r := Next(s, CopyOne);
    var todo := s.phase.todo;
    assert forall i | 0 <= i < |todo| :: todo[i] in Held(s.phase);
    assert Copies(s, todo) == [Copy(todo[0], s.objects[todo[0]].value)] + Copies(r, todo[1..]);
  }

  lemma {:induction false} WrittenSame(s: State, r: State, copied: seq<Copy>)
    requires InRange(s, copied) && r.objects == s.objects && r.rows == s.rows
    ensures Written(s, copied) == Written(r, copied)
    decreases |copied|
  {
    if copied != [] {
      WrittenSame(s, r, copied[..|copied| - 1]);
    }
  }

  lemma PendingRows(s: State)
    requires HeldInBounds(s) && !s.phase.Idle? && Enabled(s, FlushStep(s.phase))
    requires HeldInBounds(Next(s, FlushStep(s.phase)))
    ensures var r := Next(s, FlushStep(s.phase)); Written(r, Pending(r)) == Written(s, Pending(s))
  {
    var r := Next(s, FlushStep(s.phase));
    if s.phase.Copying? && s.phase.todo != [] {
      PendingMoves(s);
      WrittenSame(s, r, Pending(s));
    } else if s.phase.Copying? {
      assert Pending(s) == s.phase.copied;
    }
  }

  lemma {:induction false} FinishedRows(s: State)
    requires HeldInBounds(s)
    ensures Finished(s).current == s.current && Finished(s).rows == Written(s, Pending(s))
    decreases StepsLeft(s.phase)
  {
    if !s.phase.Idle? {
      FlushGoesOn(s);
      PendingRows(s);
      FinishedRows(Next(s, FlushStep(s.phase)));
    }
  }

  /** What an object is once the flush is through. */
  ghost function AtEnd(s: State, x: nat): Object
    requires x < |s.objects|
  {
    s.objects[x].(dirty := s.objects[x].dirty && x !in Held(s.phase))
  }

  lemma {:induction false} FinishedObjects(s: State, x: nat)
    requires HeldInBounds(s) && x < |s.objects|
    ensures |Finished(s).objects| == |s.objects| && Finished(s).objects[x] == AtEnd(s, x)
    decreases StepsLeft(s.phase)
  {
    if !s.phase.Idle? {
      FlushGoesOn(s);
      var r := Next(s, FlushStep(s.phase));
      AtEndSame(s, x);
      FinishedObjects(r, x);
    }
  }

  lemma AtEndSame(s: State, x: nat)
    requires HeldInBounds(s) && x < |s.objects| && !s.phase.Idle? && Enabled(s, FlushStep(s.phase))
    ensures var r := Next(s, FlushStep(s.phase)); |r.objects| == |s.objects| && AtEnd(r, x) == AtEnd(s, x)
  {
    HeldShrinks(s, FlushStep(s.phase));
    if x in Held(s.phase) {
      StaysHeld(s, x);
    }
  }

  /** Only the clearing of its flag lets go of an object. */
  lemma StaysHeld(s: State, x: nat)
    requires !s.phase.Idle? && Enabled(s, FlushStep(s.phase)) && x in Held(s.phase)
    ensures x in Held(Next(s, FlushStep(s.phase)).phase) || (FlushStep(s.phase).ClearOne? && s.phase.todo[0] == x)
  {
    var p := Next(s, FlushStep(s.phase)).phase;
    if s.phase.Copying? && s.phase.todo != [] {
      if i :| 0 <= i < |s.phase.copied| && s.phase.copied[i].id == x {
        assert p.copied[i].id == x;
      } else {
        var i :| 0 <= i < |s.phase.todo| && s.phase.todo[i] == x;
        assert if i == 0 then p.copied[|s.phase.copied|].id == x else p.todo[i - 1] == x;
      }
    } else if s.phase.Copying? {
      var i :| 0 <= i < |s.phase.copied| && s.phase.copied[i].id == x;
      assert p.todo[i] == x;
    } else {
      var i :| 0 <= i < |s.phase.todo| && s.phase.todo[i] == x;
      assert i > 0 ==> p.todo[i - 1] == x;
    }
  }

  /** No two pending copies are of one key. */
  lemma PendingApart(s: State, i: nat, j: nat)
    requires Shaped(s) && i < |Pending(s)| && j < |Pending(s)|
    requires SameKey(s, Pending(s)[i].id, Pending(s)[j].id)
    ensures i == j
  {
    assert |HeldList(s.phase)| == |Pending(s)|;
    assert HeldList(s.phase)[i] == Pending(s)[i].id && HeldList(s.phase)[j] == Pending(s)[j].id;
    PendingHeld(s, i);
    PendingHeld(s, j);
  }

  lemma PendingHeld(s: State, i: nat)
    requires HeldInBounds(s) && i < |Pending(s)|
    ensures Pending(s)[i].id in Held(s.phase)
  {
  }

  /** The last copy for a key is what its row gets. */
  lemma {:induction false} WrittenAt(s: State, copied: seq<Copy>, i: nat)
    requires InRange(s, copied) && i < |copied| && s.objects[copied[i].id].key in s.rows
    requires forall j | i < j < |copied| :: s.objects[copied[j].id].key != s.objects[copied[i].id].key
    ensures Written(s, copied).Keys == s.rows.Keys
    ensures Written(s, copied)[s.objects[copied[i].id].key] == copied[i].value
    decreases |copied|
  {
    var n := |copied| - 1;
    WrittenKeys(s, copied[..n]);
    if i < n {
      WrittenAt(s, copied[..n], i);
    }
  }

  lemma {:induction false} WrittenElsewhere(s: State, copied: seq<Copy>, key: string)
    requires InRange(s, copied) && key in s.rows
    requires forall i | 0 <= i < |copied| :: s.objects[copied[i].id].key != key
    ensures Written(s, copied).Keys == s.rows.Keys && Written(s, copied)[key] == s.rows[key]
    decreases |copied|
  {
    if copied != [] {
      WrittenElsewhere(s, copied[..|copied| - 1], key);
    }
  }

  lemma EndsAsIff(s: State, key: string, v: Saved)
    requires Shaped(s) && key in s.rows
    ensures key in Finished(s).rows
    ensures Finished(s).rows[key] == v <==> EndsAs(s, key, s.rows[key], v)
  {
    FinishedRows(s);
    var p := Pending(s);
    if i: nat :| i < |p| && KeyIs(s, p[i].id, key) {
      forall j: nat | j < |p| && KeyIs(s, p[j].id, key) ensures j == i {
        PendingApart(s, i, j);
      }
      WrittenAt(s, p, i);
    } else {
      WrittenElsewhere(s, p, key);
    }
  }

  /** When the flush is through, a key's clean state is saved exactly as foretold. */
  lemma WillAgreeIff(s: State, key: string)
    requires Shaped(s)
    ensures Agrees(Finished(s), key) <==> WillAgree(s, key)
  {
    FinishedRows(s);
    WrittenKeys(s, Pending(s));
    if key in s.current && key in s.rows {
      assert KeyIs(s, s.current[key], key);
      FinishedObjects(s, s.current[key]);
      EndsAsIff(s, key, s.objects[s.current[key]].value);
    }
  }

  lemma FinishedSavedIff(s: State)
    requires Shaped(s)
    ensures CleanIsSaved(Finished(s)) <==> forall key :: WillAgree(s, key)
  {
    forall key ensures Agrees(Finished(s), key) <==> WillAgree(s, key) {
      WillAgreeIff(s, key);
    }
  }

  // ----- what other steps do to it -----

  /** If the flush under way goes through, every clean state is saved. */
  ghost predicate WillBeSaved(s: State)
    requires HeldInBounds(s)
  {
    CleanIsSaved(Finished(s))
  }

  ghost predicate Saves(s: State, step: Step)
    requires Shaped(s) && Enabled(s, step)
  {
    match step
    case Change(id, v) => s.objects[id].key in s.rows ==> ChangeSaves(s, id, v)
    case Create(key) => CreateSaves(s, key)
    case Write(ok) => ok || forall i: nat | i < |s.phase.copied| :: !Repairs(s, s.phase.copied[i])
    case _ => true
  }

  /** The key's own state may change unless it is between its copy and the clearing of
      its flag; then only to what its row will hold.  A predecessor's state that the
      flush has still to copy may change if the key's own is dirty or holds just that. */
  ghost predicate ChangeSaves(s: State, id: nat, v: Saved)
    requires Shaped(s) && id < |s.objects| && s.objects[id].key in s.rows
  {
    var key := s.objects[id].key;
    assert KeyIs(s, s.current[key], key);
    var own := s.objects[s.current[key]];
    if s.current[key] == id then id !in Between(s.phase) || EndsAs(s, key, s.rows[key], v)
    else id in Held(s.phase) && id !in Between(s.phase) ==> own.dirty || own.value == v
  }

  /** The state there for the name stays dirty; or it holds, or the fresh one does, what
      the flush is still to write for the name, or if it is to write nothing for it,
      what a new row holds. */
  ghost predicate CreateSaves(s: State, key: string)
    requires Shaped(s)
  {
    if key in s.current then
      assert KeyIs(s, s.current[key], key);
      var own := s.objects[s.current[key]];
      (own.dirty && s.current[key] !in Held(s.phase)) || EndsAs(s, key, Fresh, own.value)
    else EndsAs(s, key, Fresh, Fresh)
  }

  /** The copy's key has a clean state whose row is something else. */
  ghost predicate Repairs(s: State, c: Copy) {
    c.id < |s.objects| && !Agrees(s, s.objects[c.id].key)
  }

  /** The states still to be copied for the key hold the same in both. */
  ghost predicate TodoSame(s: State, r: State, key: string) {
    s.phase.Copying? ==> forall i: nat | i < |s.phase.todo| && KeyIs(s, s.phase.todo[i], key) ::
      HoldsSame(s, r, s.phase.todo[i])
  }

  ghost predicate HoldsSame(s: State, r: State, id: nat) {
    id < |s.objects| && id < |r.objects| && r.objects[id].value == s.objects[id].value
  }

  lemma PendingSame(s: State, r: State, key: string, i: nat)
    requires HeldInBounds(s) && HeldInBounds(r) && r.phase == s.phase && Grows(s, r) && TodoSame(s, r, key)
    ensures |Pending(r)| == |Pending(s)|
    ensures i < |Pending(s)| ==> (KeyIs(s, Pending(s)[i].id, key) <==> KeyIs(r, Pending(r)[i].id, key))
    ensures i < |Pending(s)| && KeyIs(s, Pending(s)[i].id, key) ==> Pending(r)[i] == Pending(s)[i]
  {
    if i < |Pending(s)| {
      var id := Pending(s)[i].id;
      assert Pending(r)[i].id == id && KeyIs(r, id, s.objects[id].key);
      if KeyIs(s, id, key) && i >= |s.phase.copied| {
        assert s.phase.todo[i - |s.phase.copied|] == id && HoldsSame(s, r, id);
      }
    }
  }

  lemma EndsAsSame(s: State, r: State, key: string, row: Saved, v: Saved)
    requires HeldInBounds(s) && HeldInBounds(r) && r.phase == s.phase && Grows(s, r) && TodoSame(s, r, key)
    ensures EndsAs(s, key, row, v) <==> EndsAs(r, key, row, v)
  {
    hide Pending;
    PendingSame(s, r, key, 0);
    forall i: nat | i < |Pending(s)|
      ensures KeyIs(s, Pending(s)[i].id, key) <==> KeyIs(r, Pending(r)[i].id, key)
      ensures KeyIs(s, Pending(s)[i].id, key) ==> Pending(r)[i] == Pending(s)[i]
    {
      PendingSame(s, r, key, i);
    }
  }

  /** What is pending for a key is what its row will hold. */
  lemma EndsAsPending(s: State, key: string, row: Saved, i: nat, v: Saved)
    requires Shaped(s) && i < |Pending(s)| && KeyIs(s, Pending(s)[i].id, key)
    ensures EndsAs(s, key, row, v) <==> Pending(s)[i].value == v
  {
    forall j: nat | j < |Pending(s)| && KeyIs(s, Pending(s)[j].id, key) ensures j == i {
      PendingApart(s, i, j);
    }
  }

  /** A held state not yet copied is pending as it is. */
  lemma EndsAsIs(s: State, id: nat, row: Saved, v: Saved)
    requires Shaped(s) && id in Held(s.phase) && id !in Between(s.phase)
    ensures EndsAs(s, s.objects[id].key, row, v) <==> s.objects[id].value == v
  {
    var j :| 0 <= j < |s.phase.todo| && s.phase.todo[j] == id;
    var i := |s.phase.copied| + j;
    assert Pending(s)[i] == Copy(id, s.objects[id].value);
    EndsAsPending(s, s.objects[id].key, row, i, v);
  }

  /** A copied one is not copied again. */
  lemma CopiedOnce(s: State, j: nat)
    requires Shaped(s) && s.phase.Copying? && j < |s.phase.todo|
    ensures s.phase.todo[j] !in Between(s.phase)
  {
    forall i: nat | i < |s.phase.copied| ensures s.phase.copied[i].id != s.phase.todo[j] {
      assert HeldList(s.phase)[i] == s.phase.copied[i].id;
      assert HeldList(s.phase)[|s.phase.copied| + j] == s.phase.todo[j];
    }
  }

  /** A key of which nothing changes is saved as before. */
  lemma AgreesAsBefore(s: State, r: State, key: string)
    requires Shaped(s) && Shaped(r) && r.phase == s.phase && Grows(s, r) && TodoSame(s, r, key)
    requires key in r.current && key in r.rows ==>
               && key in s.current && key in s.rows && r.current[key] == s.current[key] && r.rows[key] == s.rows[key]
               && r.objects[r.current[key]] == s.objects[s.current[key]]
    requires WillAgree(s, key)
    ensures WillAgree(r, key)
  {
    if key in r.current && key in r.rows {
      EndsAsSame(s, r, key, s.rows[key], s.objects[s.current[key]].value);
    }
  }

  lemma ChangeElsewhere(s: State, id: nat, v: Saved, key: string)
    requires Shaped(s) && WillAgree(s, key) && id < |s.objects| && s.objects[id].key != key
    requires Shaped(Next(s, Change(id, v)))
    ensures WillAgree(Next(s, Change(id, v)), key)
  {
    assert key in s.current ==> KeyIs(s, s.current[key], key);
    AgreesAsBefore(s, Next(s, Change(id, v)), key);
  }

  lemma ChangeHere(s: State, id: nat, v: Saved)
    requires Shaped(s) && id < |s.objects| && WillAgree(s, s.objects[id].key)
    requires Shaped(Next(s, Change(id, v)))
    ensures WillAgree(Next(s, Change(id, v)), s.objects[id].key) <==> Saves(s, Change(id, v))
  {
    var r := Next(s, Change(id, v));
    var key := s.objects[id].key;
    if key !in s.rows {
      return;
    }
    var row, c := s.rows[key], s.current[key];
    assert KeyIs(s, c, key);
    if id in Held(s.phase) && id !in Between(s.phase) {
      EndsAsIs(r, id, row, r.objects[c].value);
      assert SameKey(s, c, id);
      return;
    }
    forall j: nat | s.phase.Copying? && j < |s.phase.todo| ensures s.phase.todo[j] != id {
      CopiedOnce(s, j);
      assert s.phase.todo[j] in Held(s.phase);
    }
    assert TodoSame(s, r, key);
    if c == id {
      EndsAsSame(s, r, key, row, v);
    } else {
      AgreesAsBefore(s, r, key);
    }
  }

  lemma ChangeSavedIff(s: State, id: nat, v: Saved)
    requires Shaped(s) && WillBeSaved(s) && Enabled(s, Change(id, v))
    ensures Shaped(Next(s, Change(id, v)))
    ensures WillBeSaved(Next(s, Change(id, v))) <==> Saves(s, Change(id, v))
  {
    var r := Next(s, Change(id, v));
    StepKeepsShaped(s, Change(id, v));
    FinishedSavedIff(s);
    FinishedSavedIff(r);
    ChangeHere(s, id, v);
    hide Shaped, Next, Finished, Saves, WillAgree;
    forall key | key != s.objects[id].key ensures WillAgree(r, key) {
      ChangeElsewhere(s, id, v, key);
    }
  }

  lemma CreateElsewhere(s: State, key: string, k: string)
    requires Shaped(s) && WillAgree(s, k) && key !in s.rows && k != key
    requires Shaped(Next(s, Create(key)))
    ensures WillAgree(Next(s, Create(key)), k)
  {
    assert k in s.current ==> KeyIs(s, s.current[k], k);
    AllTheSame(s, Next(s, Create(key)), k);
    AgreesAsBefore(s, Next(s, Create(key)), k);
  }

  lemma AllTheSame(s: State, r: State, key: string)
    requires HeldInBounds(s) && s.objects <= r.objects
    ensures Grows(s, r) && TodoSame(s, r, key)
  {
    if s.phase.Copying? {
      forall i: nat | i < |s.phase.todo| ensures HoldsSame(s, r, s.phase.todo[i]) {
        assert s.phase.todo[i] in Held(s.phase);
      }
    }
  }

  lemma CreateHere(s: State, key: string)
    requires Shaped(s) && key !in s.rows && Shaped(Next(s, Create(key)))
    ensures WillAgree(Next(s, Create(key)), key) <==> CreateSaves(s, key)
  {
    var r := Next(s, Create(key));
    AllTheSame(s, r, key);
    assert key in s.current ==> KeyIs(s, s.current[key], key);
    EndsAsSame(s, r, key, Fresh, r.objects[r.current[key]].value);
  }

  lemma CreateSavedIff(s: State, key: string)
    requires Shaped(s) && WillBeSaved(s) && Enabled(s, Create(key))
    ensures Shaped(Next(s, Create(key)))
    ensures WillBeSaved(Next(s, Create(key))) <==> Saves(s, Create(key))
  {
    var r := Next(s, Create(key));
    StepKeepsShaped(s, Create(key));
    FinishedSavedIff(s);
    FinishedSavedIff(r);
    CreateHere(s, key);
    hide Shaped, Next, Finished, CreateSaves, WillAgree;
    forall k | k != key ensures WillAgree(r, k) {
      CreateElsewhere(s, key, k);
    }
  }

  /** A poller that goes, or a state that is made without a row, changes nothing. */
  lemma GoneSaved(s: State, step: Step)
    requires Shaped(s) && WillBeSaved(s) && (step.Delete? || step.Touch?)
    ensures Shaped(Next(s, step)) && WillBeSaved(Next(s, step))
  {
    var r := Next(s, step);
    StepKeepsShaped(s, step);
    FinishedSavedIff(s);
    FinishedSavedIff(r);
    forall k ensures WillAgree(r, k) {
      assert k in s.current ==> KeyIs(s, s.current[k], k);
      AllTheSame(s, r, k);
      AgreesAsBefore(s, r, k);
    }
  }

  /** What a flush picks it will write as it is. */
  lemma BeginSaved(s: State, ids: seq<nat>)
    requires Shaped(s) && WillBeSaved(s) && Enabled(s, Begin(ids))
    ensures Shaped(Next(s, Begin(ids))) && WillBeSaved(Next(s, Begin(ids)))
  {
    var r := Next(s, Begin(ids));
    StepKeepsShaped(s, Begin(ids));
    FinishedSavedIff(r);
    hide Finished;
    forall k ensures WillAgree(r, k) {
      BegunAgrees(s, ids, k);
    }
  }

  lemma BegunAgrees(s: State, ids: seq<nat>, key: string)
    requires Shaped(s) && Enabled(s, Begin(ids)) && Shaped(Next(s, Begin(ids))) && Agrees(s, key)
    ensures WillAgree(Next(s, Begin(ids)), key)
  {
    var r := Next(s, Begin(ids));
    if key in s.current && key in s.rows {
      var c := s.current[key];
      assert KeyIs(s, c, key);
      if c in Held(r.phase) {
        EndsAsIs(r, c, s.rows[key], s.objects[c].value);
      } else {
        forall i: nat | i < |Pending(r)| ensures !KeyIs(r, Pending(r)[i].id, key) {
          PendingHeld(r, i);
          HeldIsCurrent(s, ids, i);
        }
      }
    }
  }

  lemma HeldIsCurrent(s: State, ids: seq<nat>, i: nat)
    requires Keyed(s) && Enabled(s, Begin(ids)) && i < |ids|
    ensures ids[i] < |s.objects| && s.objects[ids[i]].key in s.current && s.current[s.objects[ids[i]].key] == ids[i]
  {
    assert ids[i] in s.current.Values;
    var key :| key in s.current && s.current[key] == ids[i];
    assert KeyIs(s, ids[i], key);
  }

  /** A failed write leaves things saved exactly if it had nothing to repair. */
  lemma FailureSavedIff(s: State)
    requires Shaped(s) && WillBeSaved(s) && Enabled(s, Write(false))
    ensures Shaped(Next(s, Write(false)))
    ensures WillBeSaved(Next(s, Write(false))) <==> Saves(s, Write(false))
  {
    var r := Next(s, Write(false));
    StepKeepsShaped(s, Write(false));
    FinishedSavedIff(s);
    assert Finished(r) == r;
    hide Finished, Shaped;
    if i: nat :| i < |s.phase.copied| && Repairs(s, s.phase.copied[i]) {
      assert !Agrees(r, s.objects[s.phase.copied[i].id].key);
    } else {
      forall key ensures Agrees(r, key) {
        NothingToRepair(s, key);
      }
    }
  }

  lemma NothingToRepair(s: State, key: string)
    requires Shaped(s) && Enabled(s, Write(false)) && Saves(s, Write(false)) && WillAgree(s, key)
    ensures Agrees(s, key)
  {
    if i: nat :| i < |Pending(s)| && KeyIs(s, Pending(s)[i].id, key) {
      assert Pending(s)[i] == s.phase.copied[i] && !Repairs(s, s.phase.copied[i]);
    }
  }

  /** In any reachable state: a step leaves it so that the flush under way, if it goes
      through, leaves every clean state saved, if and only if the step saves. */
  lemma SavedKeptIff(s: State, step: Step)
    requires Shaped(s) && WillBeSaved(s) && Enabled(s, step)
    ensures Shaped(Next(s, step))
    ensures WillBeSaved(Next(s, step)) <==> Saves(s, step)
  {
    StepKeepsShaped(s, step);
    match step
    case Change(id, v) => ChangeSavedIff(s, id, v);
    case Touch(_) => GoneSaved(s, step);
    case Create(key) => CreateSavedIff(s, key);
    case Delete(_) => GoneSaved(s, step);
    case Begin(ids) => BeginSaved(s, ids);
    case Write(ok) => if !ok { FailureSavedIff(s); }
    case _ =>
  }

  ghost predicate SavingRun(s: State, steps: seq<Step>, t: State)
    requires Shaped(s) && Run(s, steps, t)
    decreases |steps|
  {
    steps == [] ||
      (Saves(s, steps[0])
       && (StepKeepsShaped(s, steps[0]); SavingRun(Next(s, steps[0]), steps[1..], t)))
  }

  ghost predicate SavedThroughout(s: State, steps: seq<Step>, t: State)
    requires Shaped(s) && Run(s, steps, t)
    decreases |steps|
  {
    WillBeSaved(s) && (steps == [] ||
      (StepKeepsShaped(s, steps[0]); SavedThroughout(Next(s, steps[0]), steps[1..], t)))
  }

  /** The runs in which it always stays so are exactly those whose every step saves. */
  lemma {:induction false} SavedThroughoutIff(s: State, steps: seq<Step>, t: State)
    requires Shaped(s) && WillBeSaved(s) && Run(s, steps, t)
    ensures SavedThroughout(s, steps, t) <==> SavingRun(s, steps, t)
    decreases |steps|
  {
    if steps != [] {
      SavedKeptIff(s, steps[0]);
      if Saves(s, steps[0]) {
        SavedThroughoutIff(Next(s, steps[0]), steps[1..], t);
      }
    }
  }

  /** After such a run a clean state's row holds what the state holds, as soon as no
      flush is under way. */
  lemma {:induction false} SavedWhenIdle(s: State, steps: seq<Step>, t: State)
    requires Shaped(s) && WillBeSaved(s) && Run(s, steps, t) && SavingRun(s, steps, t)
    ensures Shaped(t) && WillBeSaved(t) && (t.phase.Idle? ==> CleanIsSaved(t))
    decreases |steps|
  {
    if steps != [] {
      SavedKeptIff(s, steps[0]);
      SavedWhenIdle(Next(s, steps[0]), steps[1..], t);
    }
  }

  // ----- from the flush invariant -----

  lemma {:induction false} SoundWillBeSaved(s: State)
    requires Sound(s)
    ensures WillBeSaved(s)
    decreases StepsLeft(s.phase)
  {
    if !s.phase.Idle? {
      FlushGoesOn(s);
      SoundKeptIff(s, FlushStep(s.phase));
      SoundWillBeSaved(Next(s, FlushStep(s.phase)));
    }
  }

  /** What is copied, or written, is what the state holds. */
  lemma SoundEndsAs(s: State, id: nat, v: Saved)
    requires Sound(s) && id in Held(s.phase) && s.objects[id].key in s.rows
    ensures EndsAs(s, s.objects[id].key, s.rows[s.objects[id].key], v) <==> v == s.objects[id].value
  {
    var key := s.objects[id].key;
    assert Live(s, id);
    match s.phase
    case Copying(todo, copied) =>
      if i: nat :| i < |copied| && copied[i].id == id {
        assert CopyIsTrue(s, copied[i]) && Pending(s)[i] == copied[i];
        EndsAsPending(s, key, s.rows[key], i, v);
      } else {
        EndsAsIs(s, id, s.rows[key], v);
      }
    case Clearing(todo) =>
      var i: nat :| i < |todo| && todo[i] == id;
      assert RowIsTrue(s, todo[i]);
  }

  /** However far a flush has come: when it is through, a change made now is in the row
      or still marked, and so is everything else, if and only if the state was not yet
      copied or its flag already cleared, or the change changes nothing, or there is no
      row. */
  lemma ChangeIsSavedIff(s: State, id: nat, v: Saved)
    requires Sound(s) && Enabled(s, Change(id, v))
    ensures HeldInBounds(Next(s, Change(id, v)))
    ensures CleanIsSaved(Finished(Next(s, Change(id, v)))) <==>
              id !in Between(s.phase) || v == s.objects[id].value || s.objects[id].key !in s.rows
  {
    SoundWillBeSaved(s);
    ChangeSavedIff(s, id, v);
    if id in Held(s.phase) && s.objects[id].key in s.rows {
      assert Live(s, id);
      SoundEndsAs(s, id, v);
    }
  }

  /** The same for a poller made now: its state is there already and stays dirty, or it
      holds, or the new state does, what its row will hold: what the flush has copied
      for the name or is still to copy, otherwise what a new row holds. */
  lemma CreateIsSavedIff(s: State, key: string)
    requires Shaped(s) && WillBeSaved(s) && Enabled(s, Create(key))
    ensures HeldInBounds(Next(s, Create(key)))
    ensures CleanIsSaved(Finished(Next(s, Create(key)))) <==>
              var own := Touched(s, key).objects[Touched(s, key).current[key]];
              || (own.dirty && s.current[key] !in Held(s.phase))
              || EndsAs(s, key, Fresh, own.value)
  {
    CreateSavedIff(s, key);
  }

  // ----- concrete runs -----

  /** One poller, with its row. */
  function One(key: string, value: Saved, dirty: bool, row: Saved, phase: Phase): State {
    State([Object(key, value, dirty)], map[key := 0], map[key := row], phase)
  }

  ghost predicate Goes(s: State, step: Step, t: State) {
    Enabled(s, step) && Next(s, step) == t
  }

  lemma LostUpToWrite(key: string, v: Saved, w: Saved)
    ensures Goes(One(key, Fresh, false, Fresh, Idle), Change(0, v), One(key, v, true, Fresh, Idle))
    ensures Goes(One(key, v, true, Fresh, Idle), Begin([0]), One(key, v, true, Fresh, Copying([0], [])))
    ensures Goes(One(key, v, true, Fresh, Copying([0], [])), CopyOne,
                 One(key, v, true, Fresh, Copying([], [Copy(0, v)])))
    ensures Goes(One(key, v, true, Fresh, Copying([], [Copy(0, v)])), Change(0, w),
                 One(key, w, true, Fresh, Copying([], [Copy(0, v)])))
  {
    assert One(key, v, true, Fresh, Idle).current[key] == 0;
    var none: seq<Copy> := [];
    assert none + [Copy(0, v)] == [Copy(0, v)] && ([0])[1..] == [];
  }

  lemma LostFromWrite(key: string, v: Saved, w: Saved)
    ensures Goes(One(key, w, true, Fresh, Copying([], [Copy(0, v)])), Write(true), One(key, w, true, v, Clearing([0])))
    ensures Goes(One(key, w, true, v, Clearing([0])), ClearOne, One(key, w, false, v, Clearing([])))
    ensures Goes(One(key, w, false, v, Clearing([])), End, One(key, w, false, v, Idle))
  {
    var c := Copy(0, v);
    assert [c][..0] == [] && [c][1..] == [];
    assert Written(One(key, w, true, Fresh, Copying([], [c])), []) == map[key := Fresh];
    assert Ids([]) == [] && Ids([c]) == [0];
  }

  /** A change between copy and clearing is lost: the state is clean, and its row is
      the old copy. */
  lemma ChangeBetweenIsLost(key: string, v: Saved, w: Saved) returns (steps: seq<Step>)
    ensures Run(One(key, Fresh, false, Fresh, Idle), steps, One(key, w, false, v, Idle))
  {
    LostUpToWrite(key, v, w);
    LostFromWrite(key, v, w);
    hide Next, Enabled;
    var t := One(key, w, false, v, Idle);
    steps := [];
    assert Run(t, [], t);
    steps := Prepend(End, One(key, w, false, v, Clearing([])), steps, t);
    steps := Prepend(ClearOne, One(key, w, true, v, Clearing([0])), steps, t);
    steps := Prepend(Write(true), One(key, w, true, Fresh, Copying([], [Copy(0, v)])), steps, t);
    steps := Prepend(Change(0, w), One(key, v, true, Fresh, Copying([], [Copy(0, v)])), steps, t);
    steps := Prepend(CopyOne, One(key, v, true, Fresh, Copying([0], [])), steps, t);
    steps := Prepend(Begin([0]), One(key, v, true, Fresh, Idle), steps, t);
    steps := Prepend(Change(0, v), One(key, Fresh, false, Fresh, Idle), steps, t);
  }

  lemma Prepend(step: Step, s: State, rest: seq<Step>, t: State) returns (steps: seq<Step>)
    requires Enabled(s, step) && Run(Next(s, step), rest, t)
    ensures Run(s, steps, t)
  {
    steps := [step] + rest;
    assert steps[1..] == rest;
  }

  /** A poll result that comes after its poller's deletion makes a state again.  A flush
      finds no row for it and clears its flag; the next poller of that name starts with
      a new row and that old state, which no flush will save.  No state changed between
      its copy and the clearing of its flag. */
  lemma LateResultIsLost(key: string, v: Saved) returns (steps: seq<Step>)
    ensures Run(State([], map[], map[], Idle), steps, One(key, v, false, Fresh, Idle))
  {
    var s0 := State([], map[], map[], Idle);
    LateUpToCopy(key, v);
    LateFromWrite(key, v);
    hide Next, Enabled;
    var t := One(key, v, false, Fresh, Idle);
    steps := [];
    assert Run(t, [], t);
    steps := Prepend(Create(key), Rowless(key, v, false, Idle), steps, t);
    steps := Prepend(End, Rowless(key, v, false, Clearing([])), steps, t);
    steps := Prepend(ClearOne, Rowless(key, v, true, Clearing([0])), steps, t);
    steps := Prepend(Write(true), Rowless(key, v, true, Copying([], [Copy(0, v)])), steps, t);
    steps := Prepend(CopyOne, Rowless(key, v, true, Copying([0], [])), steps, t);
    steps := Prepend(Begin([0]), Rowless(key, v, true, Idle), steps, t);
    steps := Prepend(Change(0, v), Rowless(key, Fresh, false, Idle), steps, t);
    steps := Prepend(Touch(key), s0, steps, t);
  }

  /** A state whose poller is gone. */
  function Rowless(key: string, value: Saved, dirty: bool, phase: Phase): State {
    State([Object(key, value, dirty)], map[key := 0], map[], phase)
  }

  lemma LateUpToCopy(key: string, v: Saved)
    ensures Goes(State([], map[], map[], Idle), Touch(key), Rowless(key, Fresh, false, Idle))
    ensures Goes(Rowless(key, Fresh, false, Idle), Change(0, v), Rowless(key, v, true, Idle))
    ensures Goes(Rowless(key, v, true, Idle), Begin([0]), Rowless(key, v, true, Copying([0], [])))
    ensures Goes(Rowless(key, v, true, Copying([0], [])), CopyOne, Rowless(key, v, true, Copying([], [Copy(0, v)])))
  {
    assert Rowless(key, v, true, Idle).current[key] == 0;
    var none: seq<Copy> := [];
    assert none + [Copy(0, v)] == [Copy(0, v)] && ([0])[1..] == [];
  }

  lemma LateFromWrite(key: string, v: Saved)
    ensures Goes(Rowless(key, v, true, Copying([], [Copy(0, v)])), Write(true), Rowless(key, v, true, Clearing([0])))
    ensures Goes(Rowless(key, v, true, Clearing([0])), ClearOne, Rowless(key, v, false, Clearing([])))
    ensures Goes(Rowless(key, v, false, Clearing([])), End, Rowless(key, v, false, Idle))
    ensures Goes(Rowless(key, v, false, Idle), Create(key), One(key, v, false, Fresh, Idle))
  {
    var c := Copy(0, v);
    assert [c][..0] == [] && [c][1..] == [];
    assert Written(Rowless(key, v, true, Copying([], [c])), []) == map[];
    assert Ids([]) == [] && Ids([c]) == [0];
  }

  /** A poller is deleted and made again while a flush holds its old state.  The flush
      writes the old copy into the new row; the new state is clean and says otherwise. */
  lemma OldStateOverwritesNew(key: string, v: Saved) returns (steps: seq<Step>)
    ensures Run(State([], map[], map[], Idle), steps, Remade(key, v, false, v, Idle))
  {
    OldUpToCopy(key, v);
    OldUpToCreate(key, v);
    OldFromWrite(key, v);
    hide Next, Enabled;
    var t := Remade(key, v, false, v, Idle);
    var copied := Copying([], [Copy(0, v)]);
    steps := [];
    assert Run(t, [], t);
    steps := Prepend(End, Remade(key, v, false, v, Clearing([])), steps, t);
    steps := Prepend(ClearOne, Remade(key, v, true, v, Clearing([0])), steps, t);
    steps := Prepend(Write(true), Remade(key, v, true, Fresh, copied), steps, t);
    steps := Prepend(Create(key), State([Object(key, v, true)], map[], map[], copied), steps, t);
    steps := Prepend(Delete(key), One(key, v, true, Fresh, copied), steps, t);
    steps := Prepend(CopyOne, One(key, v, true, Fresh, Copying([0], [])), steps, t);
    steps := Prepend(Begin([0]), One(key, v, true, Fresh, Idle), steps, t);
    steps := Prepend(Change(0, v), One(key, Fresh, false, Fresh, Idle), steps, t);
    steps := Prepend(Create(key), State([], map[], map[], Idle), steps, t);
  }

  /** A poller made a second time: its old state, and its new one, which is clean. */
  function Remade(key: string, was: Saved, dirty: bool, row: Saved, phase: Phase): State {
    State([Object(key, was, dirty), Object(key, Fresh, false)], map[key := 1], map[key := row], phase)
  }

  lemma OldUpToCopy(key: string, v: Saved)
    ensures Goes(State([], map[], map[], Idle), Create(key), One(key, Fresh, false, Fresh, Idle))
    ensures Goes(One(key, Fresh, false, Fresh, Idle), Change(0, v), One(key, v, true, Fresh, Idle))
    ensures Goes(One(key, v, true, Fresh, Idle), Begin([0]), One(key, v, true, Fresh, Copying([0], [])))
    ensures Goes(One(key, v, true, Fresh, Copying([0], [])), CopyOne,
                 One(key, v, true, Fresh, Copying([], [Copy(0, v)])))
  {
    LostUpToWrite(key, v, v);
  }

  lemma OldUpToCreate(key: string, v: Saved)
    ensures var copied := Copying([], [Copy(0, v)]);
            var gone := State([Object(key, v, true)], map[], map[], copied);
            && Goes(One(key, v, true, Fresh, copied), Delete(key), gone)
            && Goes(gone, Create(key), Remade(key, v, true, Fresh, copied))
  {
    var one := One(key, v, true, Fresh, Copying([], [Copy(0, v)]));
    assert one.rows - {key} == map[] && one.current - {key} == map[];
    assert one.objects + [Object(key, Fresh, false)] == [Object(key, v, true), Object(key, Fresh, false)];
  }

  lemma OldFromWrite(key: string, v: Saved)
    ensures Goes(Remade(key, v, true, Fresh, Copying([], [Copy(0, v)])), Write(true),
                 Remade(key, v, true, v, Clearing([0])))
    ensures Goes(Remade(key, v, true, v, Clearing([0])), ClearOne, Remade(key, v, false, v, Clearing([])))
    ensures Goes(Remade(key, v, false, v, Clearing([])), End, Remade(key, v, false, v, Idle))
  {
    var c := Copy(0, v);
    assert [c][..0] == [] && [c][1..] == [];
    assert Written(Remade(key, v, true, Fresh, Copying([], [c])), []) == map[key := Fresh];
    assert Ids([]) == [] && Ids([c]) == [0];
  }
}
