/** Flushing poller states to their rows.  A flush copies the dirty states one by one,
    writes the copies in one transaction and then clears the dirty flags one by one;
    states change, and pollers come and go, in between. */
module StateFlush {

  /** What a row of poller_state holds. */
  datatype Saved = Saved(oper: string, health: string, lastError: string, failures: nat)

  /** What a new state, and a new row, hold. */
  const Fresh: Saved := Saved("stopped", "unknown", "", 0)

  datatype Object = Object(key: string, value: Saved, dirty: bool)

  /** A copied state: which object, and what it held. */
  datatype Copy = Copy(id: nat, value: Saved)

  datatype Phase =
    | Idle
    | Copying(todo: seq<nat>, copied: seq<Copy>)
    | Clearing(todo: seq<nat>)

  /** Objects go by id; `current` gives the state manager's object for a key, `rows`
      the table.  A removed object can still be in a flush's hands. */
  datatype State = State(
    objects: seq<Object>,
    current: map<string, nat>,
    rows: map<string, Saved>,
    phase: Phase)

  datatype Step =
    | Change(id: nat, value: Saved) // any method of PollerState that sets dirty
    | Touch(key: string)            // StateManager.Get
    | Create(key: string)           // a poller's row and state come
    | Delete(key: string)           // and go
    | Begin(ids: seq<nat>)          // GetDirty
    | CopyOne
    | Write(ok: bool)
    | ClearOne
    | End

  predicate Enabled(s: State, step: Step) {
    match step
    case Change(id, _) => id < |s.objects|
    case Touch(_) => true
    case Create(key) => key !in s.rows
    case Delete(_) => true
    case Begin(ids) => s.phase.Idle? && Distinct(ids) && forall i | 0 <= i < |ids| :: ids[i] in s.current.Values
    case CopyOne => s.phase.Copying? && s.phase.todo != [] && s.phase.todo[0] < |s.objects|
    case Write(_) => s.phase.Copying? && s.phase.todo == [] && InRange(s, s.phase.copied)
    case ClearOne => s.phase.Clearing? && s.phase.todo != [] && s.phase.todo[0] < |s.objects|
    case End => s.phase.Clearing? && s.phase.todo == []
  }

  predicate Distinct(ids: seq<nat>) {
    forall i, j | 0 <= i < j < |ids| :: ids[i] != ids[j]
  }

  predicate InRange(s: State, copied: seq<Copy>) {
    forall i | 0 <= i < |copied| :: copied[i].id < |s.objects|
  }

  function Touched(s: State, key: string): State {
    if key in s.current then s
    else s.(objects := s.objects + [Object(key, Fresh, false)], current := s.current[key := |s.objects|])
  }

  /** The transaction updates existing rows; it inserts none. */
  function Written(s: State, copied: seq<Copy>): map<string, Saved>
    requires InRange(s, copied)
  {
    if copied == [] then s.rows
    else
      var c := copied[|copied| - 1];
      var rows := Written(s, copied[..|copied| - 1]);
      var key := s.objects[c.id].key;
      if key in rows then rows[key := c.value] else rows
  }

  function Next(s: State, step: Step): State
    requires Enabled(s, step)
  {
    match step
    case Change(id, v) => s.(objects := s.objects[id := s.objects[id].(value := v, dirty := true)])
    case Touch(key) => Touched(s, key)
    case Create(key) => Touched(s.(rows := s.rows[key := Fresh]), key)
    case Delete(key) => s.(rows := s.rows - {key}, current := s.current - {key})
    case Begin(ids) => s.(phase := Copying(ids, []))
    case CopyOne =>
      var id := s.phase.todo[0];
      s.(phase := Copying(s.phase.todo[1..], s.phase.copied + [Copy(id, s.objects[id].value)]))
    case Write(ok) =>
      if ok then s.(rows := Written(s, s.phase.copied), phase := Clearing(Ids(s.phase.copied)))
      else s.(phase := Idle)
    case ClearOne =>
      var id := s.phase.todo[0];
      s.(objects := s.objects[id := s.objects[id].(dirty := false)], phase := Clearing(s.phase.todo[1..]))
    case End => s.(phase := Idle)
  }

  function Ids(copied: seq<Copy>): (ids: seq<nat>)
    ensures |ids| == |copied| && forall i | 0 <= i < |ids| :: ids[i] == copied[i].id
  {
    if copied == [] then [] else [copied[0].id] + Ids(copied[1..])
  }

  /** steps lead from s to t. */
  ghost predicate Run(s: State, steps: seq<Step>, t: State)
    decreases |steps|
  {
    if steps == [] then s == t
    else Enabled(s, steps[0]) && Run(Next(s, steps[0]), steps[1..], t)
  }

  // ----- clean states agree with their rows -----

  ghost predicate Agrees(s: State, key: string) {
    key in s.current && key in s.rows && s.current[key] < |s.objects| && !s.objects[s.current[key]].dirty ==>
      s.rows[key] == s.objects[s.current[key]].value
  }

  ghost predicate CleanIsSaved(s: State) {
    forall key :: Agrees(s, key)
  }

  /** Every key's object is its own, and every row has an object. */
  ghost predicate Keyed(s: State) {
    && (forall key | key in s.current :: KeyIs(s, s.current[key], key))
    && s.rows.Keys <= s.current.Keys
  }

  ghost predicate KeyIs(s: State, id: nat, key: string) {
    id < |s.objects| && s.objects[id].key == key
  }

  // ----- the flush in progress -----

  /** The objects that the flush holds. */
  ghost function Held(p: Phase): set<nat> {
    match p
    case Idle => {}
    case Copying(todo, copied) => (set i | 0 <= i < |todo| :: todo[i]) + set i | 0 <= i < |copied| :: copied[i].id
    case Clearing(todo) => set i | 0 <= i < |todo| :: todo[i]
  }

  /** The objects of the flush, in the order of its list. */
  function HeldList(p: Phase): seq<nat> {
    match p
    case Idle => []
    case Copying(todo, copied) => Ids(copied) + todo
    case Clearing(todo) => todo
  }

  lemma IdsSnoc(copied: seq<Copy>, c: Copy)
    ensures Ids(copied + [c]) == Ids(copied) + [c.id]
  {
  }

  /** The objects between their copy and the clearing of their flag. */
  ghost function Between(p: Phase): set<nat> {
    match p
    case Idle => {}
    case Copying(_, copied) => set i | 0 <= i < |copied| :: copied[i].id
    case Clearing(todo) => set i | 0 <= i < |todo| :: todo[i]
  }

  /** If the object's key has a row, the object is the key's current one. */
  ghost predicate Live(s: State, id: nat) {
    id < |s.objects| && (s.objects[id].key in s.rows ==>
      s.objects[id].key in s.current && s.current[s.objects[id].key] == id)
  }

  ghost predicate CopyIsTrue(s: State, c: Copy) {
    c.id < |s.objects| && (s.objects[c.id].key in s.rows ==> s.objects[c.id].value == c.value)
  }

  ghost predicate RowIsTrue(s: State, id: nat) {
    id < |s.objects| && (s.objects[id].key in s.rows ==> s.rows[s.objects[id].key] == s.objects[id].value)
  }

  ghost predicate FlushIsTrue(s: State) {
    && (forall id | id in Held(s.phase) :: Live(s, id))
    && (s.phase.Copying? ==> forall i: nat | i < |s.phase.copied| :: CopyIsTrue(s, s.phase.copied[i]))
    && (s.phase.Clearing? ==> forall i: nat | i < |s.phase.todo| :: RowIsTrue(s, s.phase.todo[i]))
  }

  ghost predicate Sound(s: State) {
    CleanIsSaved(s) && FlushIsTrue(s) && Shaped(s)
  }

  /** What no step breaks: a flush holds existing objects, each once, no two of a key. */
  ghost predicate Shaped(s: State) {
    Keyed(s) && HeldInBounds(s) && OneAKey(s) && Distinct(HeldList(s.phase))
  }

  ghost predicate HeldInBounds(s: State) {
    forall id | id in Held(s.phase) :: id < |s.objects|
  }

  ghost predicate OneAKey(s: State) {
    forall x, y | x in Held(s.phase) && y in Held(s.phase) && SameKey(s, x, y) :: x == y
  }

  ghost predicate SameKey(s: State, x: nat, y: nat) {
    x < |s.objects| && y < |s.objects| && s.objects[x].key == s.objects[y].key
  }

  /** No state with a row changes, to something else, between its copy and the clearing of
      its flag; and a poller is made anew only when the state there is for its name is
      dirty or what a new row holds, and a flush holds no predecessor's state. */
  ghost predicate Quiet(s: State, step: Step)
    requires Enabled(s, step)
  {
    match step
    case Change(id, v) =>
      || id !in Between(s.phase)
      || v == s.objects[id].value
      || s.objects[id].key !in s.rows
    case Create(key) =>
      && (key in s.current && s.current[key] < |s.objects| ==> DirtyOrNew(s, s.current[key]))
      && forall id | id in Held(s.phase) && KeyIs(s, id, key) :: HeldAsNew(s, id, key)
    case _ => true
  }

  ghost predicate DirtyOrNew(s: State, id: nat)
    requires id < |s.objects|
  {
    s.objects[id].dirty || s.objects[id].value == Fresh
  }

  /** The flush holds the key's own state; its copy is up to date or, after the write,
      the state is what a new row holds. */
  ghost predicate HeldAsNew(s: State, id: nat, key: string)
    requires id < |s.objects|
  {
    && key in s.current && s.current[key] == id
    && (s.phase.Copying? ==> forall i: nat | i < |s.phase.copied| :: CopyIsUpToDate(s, s.phase.copied[i], id))
    && (s.phase.Clearing? && id in Between(s.phase) ==> s.objects[id].value == Fresh)
  }

  ghost predicate CopyIsUpToDate(s: State, c: Copy, id: nat)
    requires id < |s.objects|
  {
    c.id == id ==> c.value == s.objects[id].value
  }

  ghost predicate QuietRun(s: State, steps: seq<Step>, t: State)
    decreases |steps|
  {
    if steps == [] then s == t
    else Enabled(s, steps[0]) && Quiet(s, steps[0]) && QuietRun(Next(s, steps[0]), steps[1..], t)
  }

  /** Some copy is of an object with this key. */
  ghost predicate Copied(s: State, copied: seq<Copy>, key: string)
    requires InRange(s, copied)
  {
    exists i :: 0 <= i < |copied| && s.objects[copied[i].id].key == key
  }

  lemma {:induction false} WrittenIs(s: State, copied: seq<Copy>, key: string)
    requires InRange(s, copied)
    requires forall i: nat | i < |copied| :: CopyIsTrue(s, copied[i]) && Live(s, copied[i].id)
    ensures Written(s, copied).Keys == s.rows.Keys
    ensures key in s.rows && !Copied(s, copied, key) ==> Written(s, copied)[key] == s.rows[key]
    ensures key in s.rows && Copied(s, copied, key) ==>
              && key in s.current && s.current[key] < |s.objects|
              && Written(s, copied)[key] == s.objects[s.current[key]].value
  {
    if copied != [] {
      var n := |copied| - 1;
      var rest := copied[..n];
      WrittenIs(s, rest, key);
      assert CopyIsTrue(s, copied[n]) && Live(s, copied[n].id);
      if Copied(s, rest, key) {
        var i :| 0 <= i < |rest| && s.objects[rest[i].id].key == key;
        assert s.objects[copied[i].id].key == key;
      }
    }
  }

  /** Copying and writing keep the list. */
  lemma CopyKeepsList(s: State)
    requires Enabled(s, CopyOne)
    ensures HeldList(Next(s, CopyOne).phase) == HeldList(s.phase)
  {
    var x := s.phase.todo[0];
    var ids := Ids(s.phase.copied);
    IdsSnoc(s.phase.copied, Copy(x, s.objects[x].value));
    hide Ids;
    MovedAlong(ids, s.phase.todo);
  }

  lemma MovedAlong(a: seq<nat>, b: seq<nat>)
    requires b != []
    ensures a + [b[0]] + b[1..] == a + b
  {
  }

  lemma WriteKeepsList(s: State)
    requires Enabled(s, Write(true))
    ensures HeldList(Next(s, Write(true)).phase) == HeldList(s.phase)
  {
    assert Ids(s.phase.copied) + [] == Ids(s.phase.copied);
  }

  /** Objects come, but none goes and none gets another key. */
  ghost predicate Grows(s: State, r: State) {
    |s.objects| <= |r.objects| && forall x: nat | x < |s.objects| :: KeyIs(r, x, s.objects[x].key)
  }

  lemma StaysOneAKey(s: State, r: State)
    requires HeldInBounds(s) && OneAKey(s) && Grows(s, r) && Held(r.phase) <= Held(s.phase)
    ensures HeldInBounds(r) && OneAKey(r)
  {
    forall x, y | x in Held(r.phase) && y in Held(r.phase) && SameKey(r, x, y) ensures x == y {
      assert KeyIs(r, x, s.objects[x].key) && KeyIs(r, y, s.objects[y].key);
      assert SameKey(s, x, y);
    }
  }

  lemma BegunOneAKey(s: State, ids: seq<nat>)
    requires Keyed(s) && Enabled(s, Begin(ids))
    ensures HeldInBounds(Next(s, Begin(ids))) && OneAKey(Next(s, Begin(ids)))
  {
    var r := Next(s, Begin(ids));
    forall x | x in Held(r.phase) ensures x < |s.objects| && KeyIs(s, x, s.objects[x].key)
                                         && s.objects[x].key in s.current && s.current[s.objects[x].key] == x {
      var key :| key in s.current && s.current[key] == x;
      assert KeyIs(s, x, key);
    }
  }

  lemma StepKeepsKeyed(s: State, step: Step)
    requires Keyed(s) && Enabled(s, step)
    ensures Keyed(Next(s, step)) && Grows(s, Next(s, step))
  {
    var r := Next(s, step);
    if step.Write? && step.ok {
      WrittenKeys(s, s.phase.copied);
    }
    forall k | k in r.current ensures KeyIs(r, r.current[k], k) {
      assert k in s.current ==> KeyIs(s, s.current[k], k);
    }
  }

  lemma {:induction false} WrittenKeys(s: State, copied: seq<Copy>)
    requires InRange(s, copied)
    ensures Written(s, copied).Keys == s.rows.Keys
    decreases |copied|
  {
    if copied != [] {
      WrittenKeys(s, copied[..|copied| - 1]);
    }
  }

  lemma StepKeepsList(s: State, step: Step)
    requires Distinct(HeldList(s.phase)) && Enabled(s, step)
    ensures Distinct(HeldList(Next(s, step).phase))
  {
    match step
    case CopyOne => CopyKeepsList(s);
    case Write(ok) => if ok { WriteKeepsList(s); }
    case _ =>
  }

  lemma HeldShrinks(s: State, step: Step)
    requires Enabled(s, step) && !step.Begin?
    ensures Held(Next(s, step).phase) <= Held(s.phase)
  {
    forall id | id in Held(Next(s, step).phase) ensures id in Held(s.phase) {
    }
  }

  lemma StepKeepsShaped(s: State, step: Step)
    requires Shaped(s) && Enabled(s, step)
    ensures Shaped(Next(s, step))
  {
    StepKeepsKeyed(s, step);
    StepKeepsList(s, step);
    if step.Begin? {
      BegunOneAKey(s, step.ids);
    } else {
      HeldShrinks(s, step);
      StaysOneAKey(s, Next(s, step));
    }
  }

  lemma WriteKeepsSound(s: State)
    requires Sound(s) && Enabled(s, Write(true))
    ensures Sound(Next(s, Write(true)))
  {
    StepKeepsShaped(s, Write(true));
    hide HeldInBounds, OneAKey, HeldList, Distinct;
    var r := Next(s, Write(true));
    var copied := s.phase.copied;
    assert forall i: nat | i < |copied| :: copied[i].id in Held(s.phase);
    WrittenIs(s, copied, "");
    forall key ensures Agrees(r, key) {
      assert Agrees(s, key);
      WrittenIs(s, copied, key);
    }
    forall id | id in Held(r.phase)
      ensures Live(r, id) && RowIsTrue(r, id)
    {
      var i: nat :| i < |copied| && copied[i].id == id;
      assert CopyIsTrue(s, copied[i]) && Live(s, id);
      WrittenIs(s, copied, s.objects[id].key);
    }
  }

  lemma ClearKeepsSound(s: State)
    requires Sound(s) && Enabled(s, ClearOne)
    ensures Sound(Next(s, ClearOne))
  {
    StepKeepsShaped(s, ClearOne);
    hide HeldInBounds, OneAKey, HeldList, Distinct;
    var r := Next(s, ClearOne);
    var id := s.phase.todo[0];
    assert RowIsTrue(s, id);
    forall key ensures Agrees(r, key) {
      assert Agrees(s, key);
      if key in s.current {
        assert KeyIs(s, s.current[key], key);
      }
    }
    forall x | x in Held(r.phase) ensures Live(r, x) {
      assert x in Held(s.phase) && Live(s, x);
    }
    forall i: nat | i < |r.phase.todo| ensures RowIsTrue(r, r.phase.todo[i]) {
      assert RowIsTrue(s, s.phase.todo[i + 1]);
    }
  }

  lemma CopyKeepsSound(s: State)
    requires Sound(s) && Enabled(s, CopyOne)
    ensures Sound(Next(s, CopyOne))
  {
    StepKeepsShaped(s, CopyOne);
    hide HeldInBounds, OneAKey, HeldList, Distinct;
    var r := Next(s, CopyOne);
    forall key ensures Agrees(r, key) {
      assert Agrees(s, key);
    }
    forall x | x in Held(r.phase) ensures Live(r, x) {
      assert x in Held(s.phase) && Live(s, x);
    }
    forall i: nat | i < |r.phase.copied| ensures CopyIsTrue(r, r.phase.copied[i]) {
      assert i < |s.phase.copied| ==> CopyIsTrue(s, s.phase.copied[i]);
    }
  }

  lemma BeginKeepsSound(s: State, ids: seq<nat>)
    requires Sound(s) && Enabled(s, Begin(ids))
    ensures Sound(Next(s, Begin(ids)))
  {
    StepKeepsShaped(s, Begin(ids));
    hide HeldInBounds, OneAKey, HeldList, Distinct;
    var r := Next(s, Begin(ids));
    forall key ensures Agrees(r, key) {
      assert Agrees(s, key);
    }
    forall x | x in Held(r.phase) ensures Live(r, x) {
      var key :| key in s.current && s.current[key] == x;
      assert KeyIs(s, x, key);
    }
  }

  lemma ChangeKeepsSound(s: State, id: nat, v: Saved)
    requires Sound(s) && Enabled(s, Change(id, v)) && Quiet(s, Change(id, v))
    ensures Sound(Next(s, Change(id, v)))
  {
    StepKeepsShaped(s, Change(id, v));
    hide HeldInBounds, OneAKey, HeldList, Distinct;
    var r := Next(s, Change(id, v));
    forall key ensures Agrees(r, key) {
      assert Agrees(s, key);
    }
    forall x | x in Held(r.phase) ensures Live(r, x) {
      assert Live(s, x);
    }
    if s.phase.Copying? {
      forall i: nat | i < |s.phase.copied| ensures CopyIsTrue(r, s.phase.copied[i]) {
        assert CopyIsTrue(s, s.phase.copied[i]) && s.phase.copied[i].id in Between(s.phase);
      }
    }
    if s.phase.Clearing? {
      forall i: nat | i < |s.phase.todo| ensures RowIsTrue(r, r.phase.todo[i]) {
        assert RowIsTrue(s, s.phase.todo[i]) && s.phase.todo[i] in Between(s.phase);
      }
    }
  }

  /** Any other change makes a copy, or a written row, untrue. */
  lemma ChangeSpoils(s: State, id: nat, v: Saved)
    requires Sound(s) && Enabled(s, Change(id, v)) && !Quiet(s, Change(id, v))
    ensures !Sound(Next(s, Change(id, v)))
  {
    var r := Next(s, Change(id, v));
    if s.phase.Copying? {
      var i: nat :| i < |s.phase.copied| && s.phase.copied[i].id == id;
      assert CopyIsTrue(s, s.phase.copied[i]) && !CopyIsTrue(r, r.phase.copied[i]);
    } else {
      var i: nat :| i < |s.phase.todo| && s.phase.todo[i] == id;
      assert RowIsTrue(s, s.phase.todo[i]) && !RowIsTrue(r, r.phase.todo[i]);
    }
  }

  lemma TouchKeepsSound(s: State, key: string)
    requires Sound(s)
    ensures Sound(Touched(s, key))
  {
    StepKeepsShaped(s, Touch(key));
    hide HeldInBounds, OneAKey, HeldList, Distinct;
    var r := Touched(s, key);
    forall k ensures Agrees(r, k) {
      assert Agrees(s, k);
    }
    FlushUnmoved(s, r);
  }

  /** A flush stays true of objects that do not change, when their keys' rows and
      current objects do not change or go. */
  lemma FlushUnmoved(s: State, r: State)
    requires FlushIsTrue(s) && r.phase == s.phase && s.objects <= r.objects
    requires forall id | id in Held(s.phase) && id < |s.objects| ::
               var key := s.objects[id].key;
               key in r.rows ==> key in s.rows && r.rows[key] == s.rows[key]
                                 && (key in s.current ==> key in r.current && r.current[key] == s.current[key])
    ensures FlushIsTrue(r)
  {
    forall x | x in Held(r.phase) ensures Live(r, x) {
      assert Live(s, x);
    }
    if s.phase.Copying? {
      forall i: nat | i < |s.phase.copied| ensures CopyIsTrue(r, r.phase.copied[i]) {
        assert CopyIsTrue(s, s.phase.copied[i]);
      }
    }
    if s.phase.Clearing? {
      forall i: nat | i < |s.phase.todo| ensures RowIsTrue(r, r.phase.todo[i]) {
        assert RowIsTrue(s, s.phase.todo[i]) && s.phase.todo[i] in Held(s.phase);
      }
    }
  }

  /** Making a poller anew leaves clean states saved exactly if the state there is for
      its name, if any, is dirty or what a new row holds. */
  lemma CreateKeepsIff(s: State, key: string)
    requires CleanIsSaved(s) && Keyed(s) && Enabled(s, Create(key))
    ensures CleanIsSaved(Next(s, Create(key))) <==>
              (key in s.current && s.current[key] < |s.objects| ==> DirtyOrNew(s, s.current[key]))
  {
    var r := Next(s, Create(key));
    forall k | k != key ensures Agrees(r, k) {
      assert Agrees(s, k);
      assert k in s.current ==> KeyIs(s, s.current[k], k);
    }
    if key in s.current {
      assert KeyIs(s, s.current[key], key);
      assert Agrees(r, key) <==> DirtyOrNew(s, s.current[key]);
    } else {
      assert Agrees(r, key);
    }
  }

  lemma CreateFlushIff(s: State, key: string)
    requires FlushIsTrue(s) && Enabled(s, Create(key))
    ensures FlushIsTrue(Next(s, Create(key))) <==>
              forall id | id in Held(s.phase) && KeyIs(s, id, key) :: HeldAsNew(s, id, key)
  {
    var r := Next(s, Create(key));
    if id :| id in Held(s.phase) && KeyIs(s, id, key) && !HeldAsNew(s, id, key) {
      assert Live(s, id);
      if Live(r, id) && s.phase.Copying? {
        var i: nat :| i < |s.phase.copied| && !CopyIsUpToDate(s, s.phase.copied[i], id);
        assert !CopyIsTrue(r, r.phase.copied[i]);
      } else if Live(r, id) {
        var i: nat :| i < |s.phase.todo| && s.phase.todo[i] == id;
        assert !RowIsTrue(r, r.phase.todo[i]);
      }
    } else {
      forall x | x in Held(r.phase) ensures Live(r, x) {
        assert Live(s, x);
        assert KeyIs(s, x, key) ==> HeldAsNew(s, x, key);
      }
      if s.phase.Copying? {
        forall i: nat | i < |s.phase.copied| ensures CopyIsTrue(r, r.phase.copied[i]) {
          var id := s.phase.copied[i].id;
          assert CopyIsTrue(s, s.phase.copied[i]) && id in Held(s.phase);
          assert KeyIs(s, id, key) ==> HeldAsNew(s, id, key) && CopyIsUpToDate(s, s.phase.copied[i], id);
        }
      }
      if s.phase.Clearing? {
        forall i: nat | i < |s.phase.todo| ensures RowIsTrue(r, r.phase.todo[i]) {
          var id := s.phase.todo[i];
          assert RowIsTrue(s, id) && id in Held(s.phase);
          assert KeyIs(s, id, key) ==> HeldAsNew(s, id, key);
        }
      }
    }
  }

  lemma CreateKeepsSoundIff(s: State, key: string)
    requires Sound(s) && Enabled(s, Create(key))
    ensures Sound(Next(s, Create(key))) <==> Quiet(s, Create(key))
  {
    CreateKeepsIff(s, key);
    StepKeepsShaped(s, Create(key));
    hide HeldInBounds, OneAKey, HeldList, Distinct;
    CreateFlushIff(s, key);
  }

  lemma DeleteKeepsSound(s: State, key: string)
    requires Sound(s)
    ensures Sound(Next(s, Delete(key)))
  {
    StepKeepsShaped(s, Delete(key));
    hide HeldInBounds, OneAKey, HeldList, Distinct;
    var r := Next(s, Delete(key));
    forall k ensures Agrees(r, k) {
      assert Agrees(s, k);
    }
    FlushUnmoved(s, r);
  }

  /** A step keeps the invariant exactly if it is quiet. */
  lemma SoundKeptIff(s: State, step: Step)
    requires Sound(s) && Enabled(s, step)
    ensures Sound(Next(s, step)) <==> Quiet(s, step)
  {
    match step
    case Change(id, v) =>
      if Quiet(s, step) {
        ChangeKeepsSound(s, id, v);
      } else {
        ChangeSpoils(s, id, v);
      }
    case Touch(key) => TouchKeepsSound(s, key);
    case Create(key) => CreateKeepsSoundIff(s, key);
    case Delete(key) => DeleteKeepsSound(s, key);
    case Begin(ids) => BeginKeepsSound(s, ids);
    case CopyOne => CopyKeepsSound(s);
    case Write(ok) =>
      if ok {
        WriteKeepsSound(s);
      } else {
        EndKeepsSound(s);
      }
    case ClearOne => ClearKeepsSound(s);
    case End => EndKeepsSound(s);
  }

  lemma EndKeepsSound(s: State)
    requires Sound(s)
    ensures Sound(s.(phase := Idle))
  {
    var r := s.(phase := Idle);
    forall key ensures Agrees(r, key) {
      assert Agrees(s, key);
    }
    forall key | key in r.current ensures KeyIs(r, r.current[key], key) {
      assert KeyIs(s, s.current[key], key);
    }
  }

  /** Every state on the way is sound. */
  ghost predicate SoundThroughout(s: State, steps: seq<Step>, t: State)
    requires Run(s, steps, t)
    decreases |steps|
  {
    Sound(s) && (steps != [] ==> SoundThroughout(Next(s, steps[0]), steps[1..], t))
  }

  /** The runs that stay sound are exactly the quiet ones. */
  lemma {:induction false} SoundThroughoutIff(s: State, steps: seq<Step>, t: State)
    requires Sound(s) && Run(s, steps, t)
    ensures SoundThroughout(s, steps, t) <==> QuietRun(s, steps, t)
    decreases |steps|
  {
    if steps != [] {
      SoundKeptIff(s, steps[0]);
      if Quiet(s, steps[0]) {
        SoundThroughoutIff(Next(s, steps[0]), steps[1..], t);
      }
    }
  }

  lemma {:induction false} QuietRunKeepsSound(s: State, steps: seq<Step>, t: State)
    requires Sound(s) && QuietRun(s, steps, t)
    ensures Sound(t)
    decreases |steps|
  {
    if steps != [] {
      SoundKeptIff(s, steps[0]);
      QuietRunKeepsSound(Next(s, steps[0]), steps[1..], t);
    }
  }

  /** From a system whose clean states are saved and in which no flush is under way,
      after any quiet run, whichever writes fail: a clean state's row, if there is one,
      holds what the state holds. */
  lemma CleanMeansSaved(s: State, steps: seq<Step>, t: State, key: string)
    requires CleanIsSaved(s) && Keyed(s) && s.phase.Idle? && QuietRun(s, steps, t)
    ensures key in t.current ==> KeyIs(t, t.current[key], key)
    ensures key in t.current && key in t.rows && !t.objects[t.current[key]].dirty ==>
              t.rows[key] == t.objects[t.current[key]].value
  {
    QuietRunKeepsSound(s, steps, t);
    assert Agrees(t, key);
    assert key in t.current ==> KeyIs(t, t.current[key], key);
  }
}
