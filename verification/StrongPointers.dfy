/** Strong pointers as threads interleave them. Every operation on a pointer cell is a sequence of
    single reads, writes and atomic changes of a count, each of them one step of one thread. */
module StrongPointers {
  import opened FiniteSets

  type Obj = nat
  type Cell = nat
  type Tid = nat

  datatype Ptr = Null | To(obj: Obj)

  /** `deleted` counts how often the object was deleted. */
  datatype Life = Life(count: int, deleted: nat)

  /** The operations: factory, copy and move construction, destruction, copy and move assignment, reset. */
  datatype Op =
    | Make(dst: Cell)
    | Copy(dst: Cell, src: Cell)
    | Move(dst: Cell, src: Cell)
    | Destroy(dst: Cell)
    | Assign(dst: Cell, src: Cell)
    | MoveAssign(dst: Cell, src: Cell)
    | Clear(dst: Cell)
  {
    predicate Constructs() {
      Make? || Copy? || Move?
    }

    predicate HasSource() {
      Copy? || Move? || Assign? || MoveAssign?
    }

    function Writes(): (cs: set<Cell>) {
      if Move? || MoveAssign? then {dst, src} else {dst}
    }

    function Uses(): (cs: set<Cell>) {
      if HasSource() then {dst, src} else {dst}
    }
  }

  /** What a thread does next. */
  datatype Pc = Start | ReadOther | Inc | Dec | Delete | Recheck | Write | WriteNull

  /** A thread inside an operation, with its two local pointers. */
  datatype Frame = Frame(op: Op, pc: Pc, oldPtr: Ptr, otherPtr: Ptr)

  /** `raced` records a report that a cell changed under an operation, `touchedDead` any access to an
      object after its deletion. */
  datatype State = State(
    objs: map<Obj, Life>, next: Obj, cells: map<Cell, Ptr>, frames: map<Tid, Frame>,
    raced: bool, touchedDead: bool)

  const INITIAL := State(map[], 0, map[], map[], false, false)

  // ----- the steps

  function Goto(s: State, t: Tid, f: Frame, pc: Pc): (r: State)
    ensures r.next == s.next && r.frames - {t} == s.frames - {t}
  {
    s.(frames := s.frames[t := f.(pc := pc)])
  }

  function Finish(s: State, t: Tid): (r: State)
    ensures r.next == s.next && r.frames - {t} == s.frames - {t}
  {
    s.(frames := s.frames - {t})
  }

  function SetCell(s: State, c: Cell, p: Ptr): (r: State)
    ensures r.next == s.next && r.frames == s.frames
  {
    s.(cells := s.cells[c := p])
  }

  /** Reads a cell; the storage of a cell that does not exist reads as null. */
  function Value(s: State, c: Cell): (p: Ptr) {
    if c in s.cells then s.cells[c] else Null
  }

  function LifeOf(s: State, p: Ptr): (life: Life) {
    if p.To? && p.obj in s.objs then s.objs[p.obj] else Life(0, 1)
  }

  /** An access to the object behind `p` that leaves it as `life`. */
  function Touch(s: State, p: Ptr, life: Life): (r: State)
    requires p.To?
    ensures r.next == s.next && r.frames == s.frames
  {
    s.(objs := s.objs[p.obj := life], touchedDead := s.touchedDead || LifeOf(s, p).deleted > 0)
  }

  /** The step after the old object was released. */
  function AfterDec(op: Op): (pc: Pc) {
    if op.Destroy? then Write else Recheck
  }

  /** The step that releases the old object, or the one after it if there is none. */
  function DecOrSkip(f: Frame): (pc: Pc) {
    if f.oldPtr.To? then Dec else AfterDec(f.op)
  }

  function StepStart(s: State, t: Tid, f: Frame): (r: State) {
    match f.op
    case Make(dst) =>
      var g := f.(otherPtr := To(s.next));
      Goto(s.(objs := s.objs[s.next := Life(0, 0)], next := s.next + 1), t, g, Write)
    case Copy(dst, src) => Goto(s, t, f.(otherPtr := Value(s, src)), Write)
    case Move(dst, src) => Goto(s, t, f.(otherPtr := Value(s, src)), Write)
    case Assign(dst, src) => Goto(s, t, f.(oldPtr := Value(s, dst)), ReadOther)
    case Clear(dst) =>
      var g := f.(oldPtr := Value(s, dst));
      if g.oldPtr.Null? then Finish(s, t) else Goto(s, t, g, Dec)
    case _ =>
      var g := f.(oldPtr := Value(s, f.op.dst));
      Goto(s, t, g, DecOrSkip(g))
  }

  function StepReadOther(s: State, t: Tid, f: Frame): (r: State) {
    var g := if f.op.HasSource() then f.(otherPtr := Value(s, f.op.src)) else f;
    if f.op.MoveAssign? then Goto(s, t, g, Write)
    else Goto(s, t, g, if g.otherPtr.To? then Inc else DecOrSkip(g))
  }

  function StepInc(s: State, t: Tid, f: Frame): (r: State)
    requires f.otherPtr.To?
  {
    var life := LifeOf(s, f.otherPtr);
    var s' := Touch(s, f.otherPtr, life.(count := life.count + 1));
    if f.op.Assign? then Goto(s', t, f, DecOrSkip(f)) else Finish(s', t)
  }

  function StepDec(s: State, t: Tid, f: Frame): (r: State)
    requires f.oldPtr.To?
  {
    var life := LifeOf(s, f.oldPtr);
    var s' := Touch(s, f.oldPtr, life.(count := life.count - 1));
    Goto(s', t, f, if life.count == 1 then Delete else AfterDec(f.op))
  }

  function StepDelete(s: State, t: Tid, f: Frame): (r: State)
    requires f.oldPtr.To?
  {
    var life := LifeOf(s, f.oldPtr);
    Goto(Touch(s, f.oldPtr, life.(deleted := life.deleted + 1)), t, f, AfterDec(f.op))
  }

  function StepRecheck(s: State, t: Tid, f: Frame): (r: State) {
    Goto(s.(raced := s.raced || Value(s, f.op.dst) != f.oldPtr), t, f, if f.op.MoveAssign? then ReadOther else Write)
  }

  function StepWrite(s: State, t: Tid, f: Frame): (r: State) {
    match f.op
    case Make(dst) => Goto(SetCell(s, dst, f.otherPtr), t, f, Inc)
    case Copy(dst, src) =>
      var s' := SetCell(s, dst, f.otherPtr);
      if f.otherPtr.To? then Goto(s', t, f, Inc) else Finish(s', t)
    case Move(dst, src) => Goto(SetCell(s, dst, f.otherPtr), t, f, WriteNull)
    case Destroy(dst) => Finish(s.(cells := s.cells - {dst}), t)
    case Assign(dst, src) => Finish(SetCell(s, dst, f.otherPtr), t)
    case MoveAssign(dst, src) => Goto(SetCell(s, dst, f.otherPtr), t, f, WriteNull)
    case Clear(dst) => Finish(SetCell(s, dst, Null), t)
  }

  function StepWriteNull(s: State, t: Tid, f: Frame): (r: State) {
    if f.op.HasSource() then Finish(SetCell(s, f.op.src, Null), t) else Finish(s, t)
  }

  /** The thread is inside an operation, and does not follow a null pointer. */
  predicate CanStep(s: State, t: Tid) {
    && t in s.frames
    && (s.frames[t].pc == Inc ==> s.frames[t].otherPtr.To?)
    && (s.frames[t].pc in {Dec, Delete} ==> s.frames[t].oldPtr.To?)
  }

  function Step(s: State, t: Tid): (r: State)
    requires CanStep(s, t)
  {
    var f := s.frames[t];
    match f.pc
    case Start => StepStart(s, t, f)
    case ReadOther => StepReadOther(s, t, f)
    case Inc => StepInc(s, t, f)
    case Dec => StepDec(s, t, f)
    case Delete => StepDelete(s, t, f)
    case Recheck => StepRecheck(s, t, f)
    case Write => StepWrite(s, t, f)
    case WriteNull => StepWriteNull(s, t, f)
  }

  /** No two operations use the same cell at once if one of them writes it. */
  predicate Compatible(p: Op, q: Op) {
    p.Writes() !! q.Uses() && q.Writes() !! p.Uses()
  }

  /** Operations begin on existing cells, except that a constructor begins on raw storage. */
  predicate CanBegin(s: State, t: Tid, op: Op) {
    && t !in s.frames
    && (op.Constructs() <==> op.dst !in s.cells)
    && (op.HasSource() ==> op.src in s.cells)
    && forall u | u in s.frames :: Compatible(op, s.frames[u].op)
  }

  function Begin(s: State, t: Tid, op: Op): (r: State) {
    s.(frames := s.frames[t := Frame(op, Start, Null, Null)])
  }

  // ----- who holds a reference

  /** The operation in frame `f` has made cell `c` stop counting, or not yet made it count. */
  ghost predicate Suspends(f: Frame, c: Cell) {
    match f.op
    case Make(dst) => f.pc == Inc && c == dst
    case Copy(dst, src) => f.pc == Inc && c == dst
    case Move(dst, src) => f.pc == WriteNull && c == src
    case Destroy(dst) => f.pc in {Delete, Write} && c == dst
    case Assign(dst, src) => f.pc in {Delete, Recheck, Write} && c == dst
    case MoveAssign(dst, src) =>
      if f.pc == WriteNull then c == src else f.pc in {Delete, Recheck, ReadOther, Write} && c == dst
    case Clear(dst) => f.pc in {Delete, Recheck, Write} && c == dst
  }

  ghost predicate Suspended(s: State, c: Cell) {
    exists t :: t in s.frames && Suspends(s.frames[t], c)
  }

  /** Frame `f` has counted a reference to `o` that no cell holds yet. */
  ghost predicate Carries(f: Frame, o: Obj) {
    f.op.Assign? && f.pc in {Dec, Delete, Recheck, Write} && f.otherPtr == To(o)
  }

  ghost function Pointing(s: State, o: Obj): (cs: set<Cell>) {
    set c | c in s.cells && s.cells[c] == To(o)
  }

  ghost function HoldingCells(s: State, o: Obj): (cs: set<Cell>) {
    set c | c in s.cells && s.cells[c] == To(o) && !Suspended(s, c)
  }

  ghost function CarryingThreads(s: State, o: Obj): (ts: set<Tid>) {
    set t | t in s.frames && Carries(s.frames[t], o)
  }

  /** Frame `f` is between the creation of `o` and its first reference, or about to delete `o`. */
  ghost predicate Claims(f: Frame, o: Obj) {
    || (f.op.Make? && f.pc in {Write, Inc} && f.otherPtr == To(o))
    || (f.pc == Delete && f.oldPtr == To(o))
  }

  // ----- the invariant

  ghost predicate Known(s: State, p: Ptr) {
    p.To? ==> p.obj in s.objs
  }

  /** The points an operation can be at. */
  ghost predicate Reaches(op: Op, pc: Pc) {
    match op
    case Make(_) => pc in {Start, Write, Inc}
    case Copy(_, _) => pc in {Start, Write, Inc}
    case Move(_, _) => pc in {Start, Write, WriteNull}
    case Destroy(_) => pc in {Start, Dec, Delete, Write}
    case Assign(_, _) => pc in {Start, ReadOther, Inc, Dec, Delete, Recheck, Write}
    case MoveAssign(_, _) => pc in {Start, Dec, Delete, Recheck, ReadOther, Write, WriteNull}
    case Clear(_) => pc in {Start, Dec, Delete, Recheck, Write}
  }

  /** The cells of an operation exist, and its local pointers match them. */
  ghost predicate FrameOk(s: State, f: Frame) {
    && Reaches(f.op, f.pc)
    && Known(s, f.oldPtr) && Known(s, f.otherPtr)
    && (f.op.HasSource() ==> f.op.src in s.cells)
    && (f.op.Copy? || f.op.Move? ==> f.op.dst != f.op.src)
    && (f.op.dst in s.cells <==> !(f.op.Constructs() && f.pc in {Start, Write}))
    && (!f.op.Constructs() && f.pc !in {Start, WriteNull} ==> s.cells[f.op.dst] == f.oldPtr)
    && (f.pc in {Dec, Delete} ==> f.oldPtr.To?)
    && (f.pc == Inc ==> f.otherPtr.To?)
    && (f.op.Make? && f.pc in {Write, Inc} ==> f.otherPtr.To?)
    && (f.op.Constructs() && f.pc in {Inc, WriteNull} ==> s.cells[f.op.dst] == f.otherPtr)
    && (f.op.MoveAssign? && f.pc == WriteNull ==> s.cells[f.op.dst] == f.otherPtr)
    && ((f.op.Copy? || f.op.Move?) && f.pc != Start ==> s.cells[f.op.src] == f.otherPtr)
    && (f.op.Assign? && f.pc !in {Start, ReadOther} ==> s.cells[f.op.src] == f.otherPtr)
    && (f.op.MoveAssign? && f.pc in {Write, WriteNull} ==> s.cells[f.op.src] == f.otherPtr)
  }

  ghost predicate WellFormed(s: State) {
    && (forall o | o in s.objs :: o < s.next)
    && (forall c | c in s.cells :: Known(s, s.cells[c]))
    && (forall t | t in s.frames :: FrameOk(s, s.frames[t]))
    && (forall t, u | t in s.frames && u in s.frames && t != u :: Compatible(s.frames[t].op, s.frames[u].op))
  }

  /** The count of every object is the number of cells and threads that hold a reference to it. */
  ghost predicate Counted(s: State) {
    forall o | o in s.objs :: s.objs[o].count == |HoldingCells(s, o)| + |CarryingThreads(s, o)|
  }

  /** An object is deleted at most once. Its count is zero and it is not deleted exactly while one
      thread is creating it or about to delete it. */
  ghost predicate LifeCycle(s: State) {
    && (forall o | o in s.objs :: s.objs[o].deleted <= 1 && (s.objs[o].deleted == 1 ==> s.objs[o].count == 0))
    && (forall t, o | t in s.frames && Claims(s.frames[t], o) ::
          o in s.objs && s.objs[o].count == 0 && s.objs[o].deleted == 0)
    && (forall t, u, o | t in s.frames && u in s.frames && Claims(s.frames[t], o) && Claims(s.frames[u], o) :: t == u)
    && (forall o | o in s.objs && s.objs[o].count == 0 && s.objs[o].deleted == 0 ::
          exists t :: t in s.frames && Claims(s.frames[t], o))
  }

  ghost predicate Inv(s: State) {
    WellFormed(s) && Counted(s) && LifeCycle(s) && !s.raced && !s.touchedDead
  }

  // ----- one step changes only what its thread may change

  /** A step of thread `t` inside `op` leads from `s` to `s'`: other threads stand where they stood,
      cells the operation does not write are as they were, and no object is forgotten. */
  ghost predicate Local(s: State, t: Tid, op: Op, s': State) {
    && (forall u | u != t :: u in s'.frames <==> u in s.frames)
    && (forall u | u != t && u in s.frames :: s'.frames[u] == s.frames[u])
    && (t in s'.frames ==> s'.frames[t].op == op)
    && (forall c | c !in op.Writes() :: c in s'.cells <==> c in s.cells)
    && (forall c | c !in op.Writes() && c in s.cells :: s'.cells[c] == s.cells[c])
    && s.objs.Keys <= s'.objs.Keys
  }

  /** The step keeps what well-formedness says about objects, cells and the thread's own frame. */
  ghost predicate Sound(s': State, t: Tid) {
    PointersKnown(s') && OwnFrameOk(s', t)
  }

  ghost predicate PointersKnown(s: State) {
    && (forall o | o in s.objs :: o < s.next)
    && (forall c | c in s.cells :: Known(s, s.cells[c]))
  }

  ghost predicate OwnFrameOk(s: State, t: Tid) {
    t in s.frames ==> FrameOk(s, s.frames[t])
  }

  /** Nothing but objects and the cells that `op` writes has changed, and no object is forgotten. */
  ghost predicate SameElsewhere(s: State, op: Op, s': State) {
    && s'.frames == s.frames && s.objs.Keys <= s'.objs.Keys
    && (forall c | c !in op.Writes() :: c in s'.cells <==> c in s.cells)
    && (forall c | c !in op.Writes() && c in s.cells :: s'.cells[c] == s.cells[c])
  }

  lemma ThenIsLocal(s: State, t: Tid, op: Op, s': State, f: Frame)
    requires t in s.frames && f.op == op && SameElsewhere(s, op, s')
    ensures Local(s, t, op, Finish(s', t))
    ensures forall pc :: Local(s, t, op, Goto(s', t, f, pc))
  {
    FinishIsLocal(s, t, op, s');
    hide Finish;
  }

  lemma FinishIsLocal(s: State, t: Tid, op: Op, s': State)
    requires t in s.frames && SameElsewhere(s, op, s')
    ensures Local(s, t, op, Finish(s', t))
  {
  }

  lemma StartIsLocal(s: State, t: Tid, f: Frame)
    requires t in s.frames && s.frames[t] == f && f.pc == Start && FrameOk(s, f)
    ensures Local(s, t, f.op, StepStart(s, t, f))
  {
    hide FrameOk, Local, Goto, Finish, Value;
    match f.op
    case Make(_) =>
      var created := s.(objs := s.objs[s.next := Life(0, 0)], next := s.next + 1);
      ThenIsLocal(s, t, f.op, created, f.(otherPtr := To(s.next)));
    case Copy(_, src) => ThenIsLocal(s, t, f.op, s, f.(otherPtr := Value(s, src)));
    case Move(_, src) => ThenIsLocal(s, t, f.op, s, f.(otherPtr := Value(s, src)));
    case _ => ThenIsLocal(s, t, f.op, s, f.(oldPtr := Value(s, f.op.dst)));
  }

  lemma StartIsSound(s: State, t: Tid, f: Frame)
    requires Sound(s, t) && t in s.frames && s.frames[t] == f && f.pc == Start
    ensures Sound(StepStart(s, t, f), t)
  {
    StartPointersKnown(s, t, f);
    StartFrameOk(s, t, f);
  }

  lemma StartPointersKnown(s: State, t: Tid, f: Frame)
    requires Sound(s, t) && t in s.frames && s.frames[t] == f && f.pc == Start
    ensures PointersKnown(StepStart(s, t, f))
  {
  }

  lemma StartFrameOk(s: State, t: Tid, f: Frame)
    requires Sound(s, t) && t in s.frames && s.frames[t] == f && f.pc == Start
    ensures OwnFrameOk(StepStart(s, t, f), t)
  {
    if f.op.Constructs() {
      StartConstructorFrameOk(s, t, f);
    } else {
      StartReplacementFrameOk(s, t, f);
    }
  }

  lemma StartConstructorFrameOk(s: State, t: Tid, f: Frame)
    requires Sound(s, t) && t in s.frames && s.frames[t] == f && f.pc == Start && f.op.Constructs()
    ensures OwnFrameOk(StepStart(s, t, f), t)
  {
  }

  lemma StartReplacementFrameOk(s: State, t: Tid, f: Frame)
    requires Sound(s, t) && t in s.frames && s.frames[t] == f && f.pc == Start && !f.op.Constructs()
    ensures OwnFrameOk(StepStart(s, t, f), t)
  {
    if f.op.Assign? || f.op.Clear? {
      StartAssignFrameOk(s, t, f);
    } else {
      StartReleaseFrameOk(s, t, f);
    }
  }

  lemma StartAssignFrameOk(s: State, t: Tid, f: Frame)
    requires Sound(s, t) && t in s.frames && s.frames[t] == f && f.pc == Start && (f.op.Assign? || f.op.Clear?)
    ensures OwnFrameOk(StepStart(s, t, f), t)
  {
  }

  lemma StartReleaseFrameOk(s: State, t: Tid, f: Frame)
    requires Sound(s, t) && t in s.frames && s.frames[t] == f && f.pc == Start && (f.op.Destroy? || f.op.MoveAssign?)
    ensures OwnFrameOk(StepStart(s, t, f), t)
  {
  }

  lemma ReadOtherIsLocal(s: State, t: Tid, f: Frame)
    requires t in s.frames && s.frames[t] == f && f.pc == ReadOther && FrameOk(s, f)
    ensures Local(s, t, f.op, StepReadOther(s, t, f))
  {
  }

  lemma ReadOtherIsSound(s: State, t: Tid, f: Frame)
    requires Sound(s, t) && t in s.frames && s.frames[t] == f && f.pc == ReadOther
    ensures Sound(StepReadOther(s, t, f), t)
  {
    ReadOtherFrameOk(s, t, f);
    hide FrameOk;
  }

  lemma ReadOtherFrameOk(s: State, t: Tid, f: Frame)
    requires Sound(s, t) && t in s.frames && s.frames[t] == f && f.pc == ReadOther
    ensures OwnFrameOk(StepReadOther(s, t, f), t)
  {
  }

  lemma IncIsLocal(s: State, t: Tid, f: Frame)
    requires t in s.frames && s.frames[t] == f && f.pc == Inc && FrameOk(s, f)
    ensures Local(s, t, f.op, StepInc(s, t, f))
  {
  }

  lemma IncIsSound(s: State, t: Tid, f: Frame)
    requires Sound(s, t) && t in s.frames && s.frames[t] == f && f.pc == Inc
    ensures Sound(StepInc(s, t, f), t)
  {
  }

  lemma DecIsLocal(s: State, t: Tid, f: Frame)
    requires t in s.frames && s.frames[t] == f && f.pc == Dec && FrameOk(s, f)
    ensures Local(s, t, f.op, StepDec(s, t, f))
  {
  }

  lemma DecIsSound(s: State, t: Tid, f: Frame)
    requires Sound(s, t) && t in s.frames && s.frames[t] == f && f.pc == Dec
    ensures Sound(StepDec(s, t, f), t)
  {
  }

  lemma DeleteIsLocal(s: State, t: Tid, f: Frame)
    requires t in s.frames && s.frames[t] == f && f.pc == Delete && FrameOk(s, f)
    ensures Local(s, t, f.op, StepDelete(s, t, f))
  {
  }

  lemma DeleteIsSound(s: State, t: Tid, f: Frame)
    requires Sound(s, t) && t in s.frames && s.frames[t] == f && f.pc == Delete
    ensures Sound(StepDelete(s, t, f), t)
  {
  }

  lemma RecheckIsLocal(s: State, t: Tid, f: Frame)
    requires t in s.frames && s.frames[t] == f && f.pc == Recheck && FrameOk(s, f)
    ensures Local(s, t, f.op, StepRecheck(s, t, f))
  {
  }

  lemma RecheckIsSound(s: State, t: Tid, f: Frame)
    requires Sound(s, t) && t in s.frames && s.frames[t] == f && f.pc == Recheck
    ensures Sound(StepRecheck(s, t, f), t)
  {
  }

  lemma WriteIsLocal(s: State, t: Tid, f: Frame)
    requires t in s.frames && s.frames[t] == f && f.pc == Write && FrameOk(s, f)
    ensures Local(s, t, f.op, StepWrite(s, t, f))
  {
    ThenIsLocal(s, t, f.op, SetCell(s, f.op.dst, f.otherPtr), f);
    ThenIsLocal(s, t, f.op, SetCell(s, f.op.dst, Null), f);
    ThenIsLocal(s, t, f.op, s.(cells := s.cells - {f.op.dst}), f);
    hide FrameOk, Local, Goto, Finish, SetCell, SameElsewhere;
  }

  lemma WriteIsSound(s: State, t: Tid, f: Frame)
    requires Sound(s, t) && t in s.frames && s.frames[t] == f && f.pc == Write
    ensures Sound(StepWrite(s, t, f), t)
  {
    WritePointersKnown(s, t, f);
    WriteFrameOk(s, t, f);
  }

  lemma WritePointersKnown(s: State, t: Tid, f: Frame)
    requires Sound(s, t) && t in s.frames && s.frames[t] == f && f.pc == Write
    ensures PointersKnown(StepWrite(s, t, f))
  {
  }

  lemma WriteFrameOk(s: State, t: Tid, f: Frame)
    requires Sound(s, t) && t in s.frames && s.frames[t] == f && f.pc == Write
    ensures OwnFrameOk(StepWrite(s, t, f), t)
  {
    if f.op.Constructs() {
      WriteConstructorFrameOk(s, t, f);
    } else {
      WriteReplacementFrameOk(s, t, f);
    }
  }

  lemma WriteConstructorFrameOk(s: State, t: Tid, f: Frame)
    requires Sound(s, t) && t in s.frames && s.frames[t] == f && f.pc == Write && f.op.Constructs()
    ensures OwnFrameOk(StepWrite(s, t, f), t)
  {
  }

  lemma WriteReplacementFrameOk(s: State, t: Tid, f: Frame)
    requires Sound(s, t) && t in s.frames && s.frames[t] == f && f.pc == Write && !f.op.Constructs()
    ensures OwnFrameOk(StepWrite(s, t, f), t)
  {
  }

  lemma WriteNullIsLocal(s: State, t: Tid, f: Frame)
    requires t in s.frames && s.frames[t] == f && f.pc == WriteNull && FrameOk(s, f)
    ensures Local(s, t, f.op, StepWriteNull(s, t, f))
  {
  }

  lemma WriteNullIsSound(s: State, t: Tid, f: Frame)
    requires Sound(s, t) && t in s.frames && s.frames[t] == f && f.pc == WriteNull
    ensures Sound(StepWriteNull(s, t, f), t)
  {
  }

  lemma StepIsLocal(s: State, t: Tid)
    requires WellFormed(s) && t in s.frames
    ensures Local(s, t, s.frames[t].op, Step(s, t)) && Sound(Step(s, t), t)
  {
    var f := s.frames[t];
    assert FrameOk(s, f) && Sound(s, t);
    hide WellFormed, FrameOk, Local, Sound;
    hide StepStart, StepReadOther, StepInc, StepDec, StepDelete, StepRecheck, StepWrite, StepWriteNull;
    match f.pc
    case Start => StartIsLocal(s, t, f); StartIsSound(s, t, f);
    case ReadOther => ReadOtherIsLocal(s, t, f); ReadOtherIsSound(s, t, f);
    case Inc => IncIsLocal(s, t, f); IncIsSound(s, t, f);
    case Dec => DecIsLocal(s, t, f); DecIsSound(s, t, f);
    case Delete => DeleteIsLocal(s, t, f); DeleteIsSound(s, t, f);
    case Recheck => RecheckIsLocal(s, t, f); RecheckIsSound(s, t, f);
    case Write => WriteIsLocal(s, t, f); WriteIsSound(s, t, f);
    case WriteNull => WriteNullIsLocal(s, t, f); WriteNullIsSound(s, t, f);
  }

  /** Other threads' operations see nothing of a step. */
  lemma OtherFrameOk(s: State, t: Tid, op: Op, s': State, f: Frame)
    requires Local(s, t, op, s') && Compatible(op, f.op) && FrameOk(s, f)
    ensures FrameOk(s', f)
  {
  }

  lemma LocalIsWellFormed(s: State, t: Tid, s': State)
    requires WellFormed(s) && t in s.frames && Local(s, t, s.frames[t].op, s') && Sound(s', t)
    ensures WellFormed(s')
  {
    forall u | u in s'.frames
      ensures FrameOk(s', s'.frames[u])
    {
      if u != t {
        OtherFrameOk(s, t, s.frames[t].op, s', s.frames[u]);
      }
    }
  }

  lemma StepWellFormed(s: State, t: Tid)
    requires WellFormed(s) && t in s.frames
    ensures WellFormed(Step(s, t))
  {
    StepIsLocal(s, t);
    LocalIsWellFormed(s, t, Step(s, t));
  }

  // ----- counting references across a step

  /** A step of thread `t`, whose cells no other thread is using. */
  ghost predicate Transition(s: State, t: Tid, s': State) {
    && t in s.frames && Local(s, t, s.frames[t].op, s')
    && forall u | u in s.frames && u != t :: Compatible(s.frames[t].op, s.frames[u].op)
  }

  /** Cell `c` points at `o` and thread `t` does not suspend it. */
  ghost predicate Held(s: State, t: Tid, c: Cell, o: Obj) {
    c in s.cells && s.cells[c] == To(o) && (t in s.frames ==> !Suspends(s.frames[t], c))
  }

  lemma OwnCellHeld(s: State, t: Tid, s': State, c: Cell, o: Obj)
    requires Transition(s, t, s') && c in s.frames[t].op.Writes()
    ensures c in HoldingCells(s, o) <==> Held(s, t, c, o)
    ensures c in HoldingCells(s', o) <==> Held(s', t, c, o)
  {
    forall u | u in s.frames && u != t
      ensures !Suspends(s.frames[u], c)
    {
      SuspendsItsOwn(s.frames[u], c);
      assert Compatible(s.frames[t].op, s.frames[u].op);
    }
    SuspendedByOne(s, t, c);
    SuspendedByOne(s', t, c);
  }

  lemma SuspendsItsOwn(f: Frame, c: Cell)
    ensures Suspends(f, c) ==> c in f.op.Writes() && c in f.op.Uses()
  {
  }

  lemma SuspendedByOne(s: State, t: Tid, c: Cell)
    requires forall u | u in s.frames && u != t :: !Suspends(s.frames[u], c)
    ensures Suspended(s, c) <==> t in s.frames && Suspends(s.frames[t], c)
  {
  }

  lemma OtherCellHeld(s: State, t: Tid, s': State, c: Cell, o: Obj)
    requires Transition(s, t, s') && c !in s.frames[t].op.Writes()
    ensures c in HoldingCells(s', o) <==> c in HoldingCells(s, o)
  {
    SuspendsItsOwn(s.frames[t], c);
    if t in s'.frames {
      SuspendsItsOwn(s'.frames[t], c);
    }
    assert Suspended(s, c) <==> Suspended(s', c) by {
      if Suspended(s, c) {
        var u :| u in s.frames && Suspends(s.frames[u], c);
        assert u in s'.frames && Suspends(s'.frames[u], c);
      }
      if Suspended(s', c) {
        var u :| u in s'.frames && Suspends(s'.frames[u], c);
        assert u in s.frames && Suspends(s.frames[u], c);
      }
    }
  }

  /** What the cells written by a step gain and lose is all that holding cells gain and lose. */
  lemma HoldingChange(s: State, t: Tid, s': State, o: Obj, gained: set<Cell>, lost: set<Cell>)
    requires Transition(s, t, s')
    requires gained + lost <= s.frames[t].op.Writes()
    requires forall c | c in gained :: Held(s', t, c, o) && !Held(s, t, c, o)
    requires forall c | c in lost :: Held(s, t, c, o) && !Held(s', t, c, o)
    requires forall c | c in s.frames[t].op.Writes() - gained - lost :: Held(s', t, c, o) <==> Held(s, t, c, o)
    ensures |HoldingCells(s', o)| == |HoldingCells(s, o)| + |gained| - |lost|
  {
    var h, h' := HoldingCells(s, o), HoldingCells(s', o);
    forall c
      ensures c in h' <==> c in h - lost + gained
    {
      if c in s.frames[t].op.Writes() {
        OwnCellHeld(s, t, s', c, o);
      } else {
        OtherCellHeld(s, t, s', c, o);
      }
    }
    forall c | c in lost + gained
      ensures c in h <==> c in lost
    {
      OwnCellHeld(s, t, s', c, o);
    }
    assert h' == h - lost + gained;
    Exchanged(h, lost, gained);
  }

  lemma Exchanged(h: set<Cell>, lost: set<Cell>, gained: set<Cell>)
    requires lost <= h && gained !! h
    ensures |h - lost + gained| == |h| + |gained| - |lost|
  {
    assert |h - lost| == |h| - |lost|;
    assert gained !! (h - lost);
  }

  lemma CarryChange(s: State, t: Tid, s': State, o: Obj)
    requires Transition(s, t, s')
    ensures var before, after := Carries(s.frames[t], o), t in s'.frames && Carries(s'.frames[t], o);
      |CarryingThreads(s', o)| == |CarryingThreads(s, o)| + (if after then 1 else 0) - (if before then 1 else 0)
  {
    var rest := set u | u in s.frames && u != t && Carries(s.frames[u], o);
    OneMore(CarryingThreads(s, o), rest, t, Carries(s.frames[t], o));
    OneMore(CarryingThreads(s', o), rest, t, t in s'.frames && Carries(s'.frames[t], o));
  }

  lemma OneMore(k: set<Tid>, rest: set<Tid>, t: Tid, present: bool)
    requires t !in rest && forall u :: u in k <==> u in rest || (u == t && present)
    ensures |k| == |rest| + if present then 1 else 0
  {
    assert k == if present then rest + {t} else rest;
  }

  ghost function References(s: State, o: Obj): (n: nat) {
    |HoldingCells(s, o)| + |CarryingThreads(s, o)|
  }

  /** The cells that begin to hold a reference to `o` by the next step of frame `f`. */
  function Gained(f: Frame, o: Obj): (cs: set<Cell>) {
    if f.otherPtr != To(o) then {}
    else if f.pc == Inc && !f.op.Assign? then {f.op.dst}
    else if f.pc == Write && (f.op.Move? || f.op.Assign? || (f.op.MoveAssign? && f.op.dst != f.op.src)) then {f.op.dst}
    else {}
  }

  /** The cells that cease to hold one. */
  function Lost(f: Frame, o: Obj): (cs: set<Cell>) {
    if f.pc == Dec && f.oldPtr == To(o) then {f.op.dst}
    else if f.pc == Write && f.otherPtr == To(o) && (f.op.Move? || (f.op.MoveAssign? && f.op.dst != f.op.src))
    then {f.op.src}
    else {}
  }

  function One(b: bool): (n: int) {
    if b then 1 else 0
  }

  /** The step from `s` to `s'` moves references to `o` as `Gained` and `Lost` say. */
  ghost predicate Shifts(s: State, t: Tid, f: Frame, s': State, o: Obj) {
    var gained, lost := Gained(f, o), Lost(f, o);
    && (forall c | c in gained :: Held(s', t, c, o) && !Held(s, t, c, o))
    && (forall c | c in lost :: Held(s, t, c, o) && !Held(s', t, c, o))
    && (forall c | c in f.op.Writes() - gained - lost :: Held(s', t, c, o) <==> Held(s, t, c, o))
  }

  /** The count of `o` changes by as much as the references do. */
  ghost predicate Counts(s: State, t: Tid, f: Frame, s': State, o: Obj) {
    if o in s.objs then
      o in s'.objs && s'.objs[o].count ==
        s.objs[o].count + |Gained(f, o)| - |Lost(f, o)|
        + One(t in s'.frames && Carries(s'.frames[t], o)) - One(Carries(f, o))
    else
      o in s'.objs ==>
        && s'.objs[o].count == 0 && !Carries(f, o) && !(t in s'.frames && Carries(s'.frames[t], o))
        && Gained(f, o) == {} == Lost(f, o)
  }

  lemma StartShifts(s: State, t: Tid, f: Frame, o: Obj)
    requires t in s.frames && s.frames[t] == f && f.pc == Start && FrameOk(s, f)
    ensures Shifts(s, t, f, StepStart(s, t, f), o)
  {
  }

  lemma StartCounts(s: State, t: Tid, f: Frame, o: Obj)
    requires t in s.frames && s.frames[t] == f && f.pc == Start && FrameOk(s, f) && s.next !in s.objs
    ensures Counts(s, t, f, StepStart(s, t, f), o)
  {
  }

  lemma ReadOtherShifts(s: State, t: Tid, f: Frame, o: Obj)
    requires t in s.frames && s.frames[t] == f && f.pc == ReadOther && FrameOk(s, f)
    ensures Shifts(s, t, f, StepReadOther(s, t, f), o)
  {
  }

  lemma ReadOtherCounts(s: State, t: Tid, f: Frame, o: Obj)
    requires t in s.frames && s.frames[t] == f && f.pc == ReadOther && FrameOk(s, f)
    ensures Counts(s, t, f, StepReadOther(s, t, f), o)
  {
  }

  lemma IncShifts(s: State, t: Tid, f: Frame, o: Obj)
    requires t in s.frames && s.frames[t] == f && f.pc == Inc && FrameOk(s, f)
    ensures Shifts(s, t, f, StepInc(s, t, f), o)
  {
  }

  lemma IncCounts(s: State, t: Tid, f: Frame, o: Obj)
    requires t in s.frames && s.frames[t] == f && f.pc == Inc && FrameOk(s, f)
    ensures Counts(s, t, f, StepInc(s, t, f), o)
  {
  }

  lemma DecShifts(s: State, t: Tid, f: Frame, o: Obj)
    requires t in s.frames && s.frames[t] == f && f.pc == Dec && FrameOk(s, f)
    ensures Shifts(s, t, f, StepDec(s, t, f), o)
  {
  }

  lemma DecCounts(s: State, t: Tid, f: Frame, o: Obj)
    requires t in s.frames && s.frames[t] == f && f.pc == Dec && FrameOk(s, f)
    ensures Counts(s, t, f, StepDec(s, t, f), o)
  {
  }

  lemma DeleteShifts(s: State, t: Tid, f: Frame, o: Obj)
    requires t in s.frames && s.frames[t] == f && f.pc == Delete && FrameOk(s, f)
    ensures Shifts(s, t, f, StepDelete(s, t, f), o)
  {
  }

  lemma DeleteCounts(s: State, t: Tid, f: Frame, o: Obj)
    requires t in s.frames && s.frames[t] == f && f.pc == Delete && FrameOk(s, f)
    ensures Counts(s, t, f, StepDelete(s, t, f), o)
  {
  }

  lemma RecheckShifts(s: State, t: Tid, f: Frame, o: Obj)
    requires t in s.frames && s.frames[t] == f && f.pc == Recheck && FrameOk(s, f)
    ensures Shifts(s, t, f, StepRecheck(s, t, f), o)
  {
  }

  lemma RecheckCounts(s: State, t: Tid, f: Frame, o: Obj)
    requires t in s.frames && s.frames[t] == f && f.pc == Recheck && FrameOk(s, f)
    ensures Counts(s, t, f, StepRecheck(s, t, f), o)
  {
  }

  lemma WriteShifts(s: State, t: Tid, f: Frame, o: Obj)
    requires t in s.frames && s.frames[t] == f && f.pc == Write && FrameOk(s, f)
    ensures Shifts(s, t, f, StepWrite(s, t, f), o)
  {
    hide FrameOk, Shifts;
    if f.op.Constructs() {
      WriteConstructorShifts(s, t, f, o);
    } else {
      WriteReplacementShifts(s, t, f, o);
    }
  }

  lemma WriteConstructorShifts(s: State, t: Tid, f: Frame, o: Obj)
    requires t in s.frames && s.frames[t] == f && f.pc == Write && FrameOk(s, f) && f.op.Constructs()
    ensures Shifts(s, t, f, StepWrite(s, t, f), o)
  {
  }

  lemma WriteReplacementShifts(s: State, t: Tid, f: Frame, o: Obj)
    requires t in s.frames && s.frames[t] == f && f.pc == Write && FrameOk(s, f) && !f.op.Constructs()
    ensures Shifts(s, t, f, StepWrite(s, t, f), o)
  {
  }

  lemma WriteCounts(s: State, t: Tid, f: Frame, o: Obj)
    requires t in s.frames && s.frames[t] == f && f.pc == Write && FrameOk(s, f)
    ensures Counts(s, t, f, StepWrite(s, t, f), o)
  {
  }

  lemma WriteNullShifts(s: State, t: Tid, f: Frame, o: Obj)
    requires t in s.frames && s.frames[t] == f && f.pc == WriteNull && FrameOk(s, f)
    ensures Shifts(s, t, f, StepWriteNull(s, t, f), o)
  {
  }

  lemma WriteNullCounts(s: State, t: Tid, f: Frame, o: Obj)
    requires t in s.frames && s.frames[t] == f && f.pc == WriteNull && FrameOk(s, f)
    ensures Counts(s, t, f, StepWriteNull(s, t, f), o)
  {
  }

  lemma StepShifts(s: State, t: Tid, f: Frame, o: Obj)
    requires t in s.frames && s.frames[t] == f && FrameOk(s, f) && s.next !in s.objs
    ensures Shifts(s, t, f, Step(s, t), o) && Counts(s, t, f, Step(s, t), o)
  {
    match f.pc
    case Start => StartShifts(s, t, f, o); StartCounts(s, t, f, o);
    case ReadOther => ReadOtherShifts(s, t, f, o); ReadOtherCounts(s, t, f, o);
    case Inc => IncShifts(s, t, f, o); IncCounts(s, t, f, o);
    case Dec => DecShifts(s, t, f, o); DecCounts(s, t, f, o);
    case Delete => DeleteShifts(s, t, f, o); DeleteCounts(s, t, f, o);
    case Recheck => RecheckShifts(s, t, f, o); RecheckCounts(s, t, f, o);
    case Write => WriteShifts(s, t, f, o); WriteCounts(s, t, f, o);
    case WriteNull => WriteNullShifts(s, t, f, o); WriteNullCounts(s, t, f, o);
  }

  lemma UnknownIsUnreferenced(s: State, o: Obj)
    requires WellFormed(s) && o !in s.objs
    ensures References(s, o) == 0
  {
    assert HoldingCells(s, o) == {};
    assert CarryingThreads(s, o) == {};
  }

  lemma ObjectCounted(s: State, t: Tid, f: Frame, s': State, o: Obj)
    requires Transition(s, t, s') && s.frames[t] == f && o in s'.objs
    requires Shifts(s, t, f, s', o) && Counts(s, t, f, s', o)
    requires if o in s.objs then s.objs[o].count == References(s, o) else References(s, o) == 0
    ensures s'.objs[o].count == References(s', o)
  {
    HoldingChange(s, t, s', o, Gained(f, o), Lost(f, o));
    CarryChange(s, t, s', o);
    hide HoldingCells, CarryingThreads, Gained, Lost, Carries, Local, Held, Compatible;
  }

  lemma StepCounted(s: State, t: Tid, s': State)
    requires WellFormed(s) && t in s.frames && s' == Step(s, t) && Transition(s, t, s')
    requires Counted(s)
    ensures Counted(s')
  {
    forall o | o in s'.objs
      ensures s'.objs[o].count == References(s', o)
    {
      StepShifts(s, t, s.frames[t], o);
      if o !in s.objs {
        UnknownIsUnreferenced(s, o);
      }
      ObjectCounted(s, t, s.frames[t], s', o);
    }
  }

  // ----- the life of an object across a step

  ghost predicate ClaimsAfter(s: State, t: Tid, o: Obj) {
    t in s.frames && Claims(s.frames[t], o)
  }

  /** How one step of frame `f` can treat object `o`: create it, count it up or down, delete it, or
      leave it alone. */
  ghost predicate Treats(s: State, t: Tid, f: Frame, s': State, o: Obj) {
    if o !in s.objs then
      o in s'.objs ==> f.op.Make? && f.pc == Start && s'.objs[o] == Life(0, 0) && ClaimsAfter(s', t, o)
    else
      var life := s.objs[o];
      && o in s'.objs
      && if f.pc == Inc && f.otherPtr == To(o) then
           s'.objs[o] == life.(count := life.count + 1) && !ClaimsAfter(s', t, o)
         else if f.pc == Dec && f.oldPtr == To(o) then
           s'.objs[o] == life.(count := life.count - 1) && (ClaimsAfter(s', t, o) <==> life.count == 1)
         else if f.pc == Delete && f.oldPtr == To(o) then
           s'.objs[o] == life.(deleted := life.deleted + 1) && !ClaimsAfter(s', t, o)
         else
           s'.objs[o] == life && (ClaimsAfter(s', t, o) <==> Claims(f, o))
  }

  lemma StartTreats(s: State, t: Tid, f: Frame, o: Obj)
    requires t in s.frames && s.frames[t] == f && f.pc == Start && FrameOk(s, f) && s.next !in s.objs
    ensures Treats(s, t, f, StepStart(s, t, f), o)
    ensures o in StepStart(s, t, f).objs || !ClaimsAfter(StepStart(s, t, f), t, o)
  {
  }

  lemma ReadOtherTreats(s: State, t: Tid, f: Frame, o: Obj)
    requires t in s.frames && s.frames[t] == f && f.pc == ReadOther && FrameOk(s, f) && s.next !in s.objs
    ensures Treats(s, t, f, StepReadOther(s, t, f), o)
    ensures o in StepReadOther(s, t, f).objs || !ClaimsAfter(StepReadOther(s, t, f), t, o)
  {
  }

  lemma IncTreats(s: State, t: Tid, f: Frame, o: Obj)
    requires t in s.frames && s.frames[t] == f && f.pc == Inc && FrameOk(s, f) && s.next !in s.objs
    ensures Treats(s, t, f, StepInc(s, t, f), o)
    ensures o in StepInc(s, t, f).objs || !ClaimsAfter(StepInc(s, t, f), t, o)
  {
  }

  lemma DecTreats(s: State, t: Tid, f: Frame, o: Obj)
    requires t in s.frames && s.frames[t] == f && f.pc == Dec && FrameOk(s, f) && s.next !in s.objs
    ensures Treats(s, t, f, StepDec(s, t, f), o)
    ensures o in StepDec(s, t, f).objs || !ClaimsAfter(StepDec(s, t, f), t, o)
  {
  }

  lemma DeleteTreats(s: State, t: Tid, f: Frame, o: Obj)
    requires t in s.frames && s.frames[t] == f && f.pc == Delete && FrameOk(s, f) && s.next !in s.objs
    ensures Treats(s, t, f, StepDelete(s, t, f), o)
    ensures o in StepDelete(s, t, f).objs || !ClaimsAfter(StepDelete(s, t, f), t, o)
  {
  }

  lemma RecheckTreats(s: State, t: Tid, f: Frame, o: Obj)
    requires t in s.frames && s.frames[t] == f && f.pc == Recheck && FrameOk(s, f) && s.next !in s.objs
    ensures Treats(s, t, f, StepRecheck(s, t, f), o)
    ensures o in StepRecheck(s, t, f).objs || !ClaimsAfter(StepRecheck(s, t, f), t, o)
  {
  }

  lemma WriteTreats(s: State, t: Tid, f: Frame, o: Obj)
    requires t in s.frames && s.frames[t] == f && f.pc == Write && FrameOk(s, f) && s.next !in s.objs
    ensures Treats(s, t, f, StepWrite(s, t, f), o)
    ensures o in StepWrite(s, t, f).objs || !ClaimsAfter(StepWrite(s, t, f), t, o)
  {
  }

  lemma WriteNullTreats(s: State, t: Tid, f: Frame, o: Obj)
    requires t in s.frames && s.frames[t] == f && f.pc == WriteNull && FrameOk(s, f) && s.next !in s.objs
    ensures Treats(s, t, f, StepWriteNull(s, t, f), o)
    ensures o in StepWriteNull(s, t, f).objs || !ClaimsAfter(StepWriteNull(s, t, f), t, o)
  {
  }

  lemma StepTreats(s: State, t: Tid, f: Frame, o: Obj)
    requires t in s.frames && s.frames[t] == f && FrameOk(s, f) && s.next !in s.objs
    ensures Treats(s, t, f, Step(s, t), o)
    ensures o in Step(s, t).objs || !ClaimsAfter(Step(s, t), t, o)
  {
    match f.pc
    case Start => StartTreats(s, t, f, o);
    case ReadOther => ReadOtherTreats(s, t, f, o);
    case Inc => IncTreats(s, t, f, o);
    case Dec => DecTreats(s, t, f, o);
    case Delete => DeleteTreats(s, t, f, o);
    case Recheck => RecheckTreats(s, t, f, o);
    case Write => WriteTreats(s, t, f, o);
    case WriteNull => WriteNullTreats(s, t, f, o);
  }

  /** The object that the next step of frame `f` accesses, if any. */
  function Accessed(f: Frame): (p: Ptr) {
    if f.pc == Inc then f.otherPtr else if f.pc in {Dec, Delete} then f.oldPtr else Null
  }

  /** The accessed object is not deleted. It is either referenced or claimed by the accessing thread. */
  ghost predicate AccessesLive(s: State, f: Frame) {
    Accessed(f).To? ==>
      var o := Accessed(f).obj;
      && o in s.objs && s.objs[o].deleted == 0
      && (f.pc == Dec || (f.pc == Inc && !f.op.Make?) ==> s.objs[o].count >= 1)
      && (f.pc == Delete || (f.pc == Inc && f.op.Make?) ==> Claims(f, o))
  }

  /** A reference to an object in a cell that its operation may rely on keeps the object alive. */
  lemma AccessedIsLive(s: State, t: Tid)
    requires WellFormed(s) && Counted(s) && LifeCycle(s) && t in s.frames
    ensures AccessesLive(s, s.frames[t])
  {
    var f := s.frames[t];
    assert FrameOk(s, f);
    hide WellFormed, Counted, LifeCycle, HoldingCells;
    if f.pc == Dec {
      CellHolds(s, t, f.op.dst, f.oldPtr.obj);
      ReferencedIsLive(s, f.op.dst, f.oldPtr.obj);
    } else if f.pc == Inc && !f.op.Make? {
      CellHolds(s, t, f.op.src, f.otherPtr.obj);
      ReferencedIsLive(s, f.op.src, f.otherPtr.obj);
    } else if Accessed(f).To? {
      ClaimedIsLive(s, t, Accessed(f).obj);
    }
  }

  lemma ReferencedIsLive(s: State, c: Cell, o: Obj)
    requires Counted(s) && LifeCycle(s) && o in s.objs && c in HoldingCells(s, o)
    ensures s.objs[o].deleted == 0 && s.objs[o].count >= 1
  {
    assert |HoldingCells(s, o)| >= 1;
  }

  lemma ClaimedIsLive(s: State, t: Tid, o: Obj)
    requires LifeCycle(s) && t in s.frames && Claims(s.frames[t], o)
    ensures o in s.objs && s.objs[o].deleted == 0
  {
  }

  /** A cell in use by thread `t`, pointing at `o` and not suspended by `t`, holds `o`. */
  lemma CellHolds(s: State, t: Tid, c: Cell, o: Obj)
    requires WellFormed(s) && t in s.frames && c in s.frames[t].op.Uses()
    requires c in s.cells && s.cells[c] == To(o) && !Suspends(s.frames[t], c)
    ensures o in s.objs && c in HoldingCells(s, o)
  {
    forall u | u in s.frames && u != t
      ensures !Suspends(s.frames[u], c)
    {
      SuspendsItsOwn(s.frames[u], c);
      assert Compatible(s.frames[t].op, s.frames[u].op);
    }
    SuspendedByOne(s, t, c);
    assert Known(s, s.cells[c]);
  }

  ghost predicate Treated(s: State, t: Tid, f: Frame, s': State) {
    && t in s.frames && s.frames[t] == f
    && (forall u | u != t :: u in s'.frames <==> u in s.frames)
    && (forall u | u != t && u in s.frames :: s'.frames[u] == s.frames[u])
    && (forall o :: Treats(s, t, f, s', o) && (o in s'.objs || !ClaimsAfter(s', t, o)))
  }

  lemma TreatedOnce(s: State, t: Tid, f: Frame, s': State, o: Obj)
    requires Treated(s, t, f, s') && LifeCycle(s) && AccessesLive(s, f) && o in s'.objs
    ensures s'.objs[o].deleted <= 1 && (s'.objs[o].deleted == 1 ==> s'.objs[o].count == 0)
  {
    assert Treats(s, t, f, s', o);
    assert Claims(f, o) && o in s.objs ==> s.objs[o].count == 0;
  }

  lemma TreatedClaim(s: State, t: Tid, f: Frame, s': State, u: Tid, o: Obj)
    requires Treated(s, t, f, s') && LifeCycle(s) && AccessesLive(s, f) && u in s'.frames && Claims(s'.frames[u], o)
    ensures o in s'.objs && s'.objs[o].count == 0 && s'.objs[o].deleted == 0
    ensures u != t ==> !ClaimsAfter(s', t, o)
  {
    assert Treats(s, t, f, s', o);
    if u != t {
      assert u in s.frames && Claims(s.frames[u], o);
      assert !Claims(f, o);
    }
  }

  lemma TreatedOrphan(s: State, t: Tid, f: Frame, s': State, o: Obj)
    requires Treated(s, t, f, s') && LifeCycle(s) && AccessesLive(s, f)
    requires o in s'.objs && s'.objs[o].count == 0 && s'.objs[o].deleted == 0
    ensures exists u :: u in s'.frames && Claims(s'.frames[u], o)
  {
    assert Treats(s, t, f, s', o);
    if !ClaimsAfter(s', t, o) {
      var u :| u in s.frames && Claims(s.frames[u], o);
      assert u in s'.frames && Claims(s'.frames[u], o);
    }
  }

  lemma TreatedLifeCycle(s: State, t: Tid, f: Frame, s': State)
    requires Treated(s, t, f, s') && LifeCycle(s) && AccessesLive(s, f)
    ensures LifeCycle(s')
  {
    forall o | o in s'.objs
      ensures s'.objs[o].deleted <= 1 && (s'.objs[o].deleted == 1 ==> s'.objs[o].count == 0)
    {
      TreatedOnce(s, t, f, s', o);
    }
    forall u, o | u in s'.frames && Claims(s'.frames[u], o)
      ensures o in s'.objs && s'.objs[o].count == 0 && s'.objs[o].deleted == 0
      ensures u != t ==> !ClaimsAfter(s', t, o)
    {
      TreatedClaim(s, t, f, s', u, o);
    }
    forall o | o in s'.objs && s'.objs[o].count == 0 && s'.objs[o].deleted == 0
      ensures exists u :: u in s'.frames && Claims(s'.frames[u], o)
    {
      TreatedOrphan(s, t, f, s', o);
    }
    forall u, v, o | u in s'.frames && v in s'.frames && Claims(s'.frames[u], o) && Claims(s'.frames[v], o)
      ensures u == v
    {
      TreatedClaim(s, t, f, s', u, o);
      TreatedClaim(s, t, f, s', v, o);
    }
  }

  lemma StepLifeCycle(s: State, t: Tid, s': State)
    requires WellFormed(s) && Counted(s) && LifeCycle(s) && t in s.frames && s' == Step(s, t)
    requires Local(s, t, s.frames[t].op, s')
    ensures LifeCycle(s')
  {
    var f := s.frames[t];
    AccessedIsLive(s, t);
    forall o
      ensures Treats(s, t, f, s', o) && (o in s'.objs || !ClaimsAfter(s', t, o))
    {
      StepTreats(s, t, f, o);
    }
    TreatedLifeCycle(s, t, f, s');
  }

  // ----- every step keeps the invariant

  lemma StepFlags(s: State, t: Tid, f: Frame)
    requires t in s.frames && s.frames[t] == f && FrameOk(s, f) && AccessesLive(s, f)
    requires !s.raced && !s.touchedDead
    ensures !Step(s, t).raced && !Step(s, t).touchedDead
  {
  }

  lemma StepUnfaulted(s: State, t: Tid)
    requires Inv(s) && t in s.frames
    ensures !Step(s, t).raced && !Step(s, t).touchedDead
  {
    AccessedIsLive(s, t);
    StepFlags(s, t, s.frames[t]);
  }

  lemma StepKeepsInv(s: State, t: Tid)
    requires Inv(s) && t in s.frames
    ensures Inv(Step(s, t))
  {
    StepWellFormed(s, t);
    StepIsLocal(s, t);
    StepCounted(s, t, Step(s, t));
    StepLifeCycle(s, t, Step(s, t));
    StepUnfaulted(s, t);
  }

  /** An operation that has not taken a step holds, suspends and claims nothing. */
  lemma FreshFrame(op: Op, c: Cell, o: Obj)
    ensures var f := Frame(op, Start, Null, Null); !Suspends(f, c) && !Carries(f, o) && !Claims(f, o)
  {
  }

  lemma BeginWellFormed(s: State, t: Tid, op: Op)
    requires WellFormed(s) && CanBegin(s, t, op)
    ensures WellFormed(Begin(s, t, op))
  {
    var s' := Begin(s, t, op);
    forall u | u in s'.frames
      ensures FrameOk(s', s'.frames[u])
    {
      if u != t {
        assert FrameOk(s, s.frames[u]);
      }
    }
  }

  lemma BeginCounted(s: State, t: Tid, op: Op)
    requires t !in s.frames && Counted(s)
    ensures Counted(Begin(s, t, op))
  {
    var s' := Begin(s, t, op);
    forall o | o in s'.objs
      ensures s'.objs[o].count == References(s', o)
    {
      forall c
        ensures Suspended(s', c) <==> Suspended(s, c)
      {
        FreshFrame(op, c, o);
        if Suspended(s, c) {
          var u :| u in s.frames && Suspends(s.frames[u], c);
          assert u in s'.frames && Suspends(s'.frames[u], c);
        }
      }
      FreshFrame(op, 0, o);
      assert HoldingCells(s', o) == HoldingCells(s, o);
      assert CarryingThreads(s', o) == CarryingThreads(s, o);
    }
  }

  lemma BeginLifeCycle(s: State, t: Tid, op: Op)
    requires t !in s.frames && LifeCycle(s)
    ensures LifeCycle(Begin(s, t, op))
  {
    var s' := Begin(s, t, op);
    forall u, o | u in s'.frames && Claims(s'.frames[u], o)
      ensures u in s.frames && s'.frames[u] == s.frames[u]
    {
      FreshFrame(op, 0, o);
    }
    forall o | o in s'.objs && s'.objs[o].count == 0 && s'.objs[o].deleted == 0
      ensures exists u :: u in s'.frames && Claims(s'.frames[u], o)
    {
      var u :| u in s.frames && Claims(s.frames[u], o);
      assert u in s'.frames && Claims(s'.frames[u], o);
    }
  }

  lemma BeginKeepsInv(s: State, t: Tid, op: Op)
    requires Inv(s) && CanBegin(s, t, op)
    ensures Inv(Begin(s, t, op))
  {
    BeginWellFormed(s, t, op);
    BeginCounted(s, t, op);
    BeginLifeCycle(s, t, op);
  }

  // ----- whole runs

  /** A thread begins an operation, or takes the next step of the one it is in. */
  datatype Action = Starts(tid: Tid, op: Op) | Steps(tid: Tid)

  ghost predicate Enabled(s: State, a: Action) {
    match a
    case Starts(t, op) => CanBegin(s, t, op)
    case Steps(t) => CanStep(s, t)
  }

  ghost function Act(s: State, a: Action): (r: State)
    requires Enabled(s, a)
  {
    match a
    case Starts(t, op) => Begin(s, t, op)
    case Steps(t) => Step(s, t)
  }

  /** `s` is reached from the state without objects by some interleaving of `run`. */
  ghost predicate Reached(run: seq<Action>, s: State) {
    if run == [] then s == INITIAL
    else
      var n := |run| - 1;
      exists before :: Reached(run[..n], before) && Enabled(before, run[n]) && s == Act(before, run[n])
  }

  lemma {:induction false} ReachedInv(run: seq<Action>, s: State)
    requires Reached(run, s)
    ensures Inv(s)
  {
    if run != [] {
      var n := |run| - 1;
      var before :| Reached(run[..n], before) && Enabled(before, run[n]) && s == Act(before, run[n]);
      ReachedInv(run[..n], before);
      match run[n]
      case Starts(t, op) => BeginKeepsInv(before, t, op);
      case Steps(t) => StepKeepsInv(before, t);
    }
  }

  /** Under every interleaving, no thread is ever blocked inside an operation, no race is reported,
      and no step accesses a deleted object. */
  lemma EveryStepIsSafe(run: seq<Action>, s: State, t: Tid)
    requires Reached(run, s) && t in s.frames
    ensures Enabled(s, Steps(t))
    ensures !Step(s, t).raced && !Step(s, t).touchedDead
    ensures Accessed(s.frames[t]).To? ==>
      Accessed(s.frames[t]).obj in s.objs && s.objs[Accessed(s.frames[t]).obj].deleted == 0
  {
    ReachedInv(run, s);
    AccessedIsLive(s, t);
    StepUnfaulted(s, t);
  }

  /** Under every interleaving, the count of an object is the number of cells that point at it, less
      those whose reference is already given up or not yet taken, plus the references taken for a cell
      not yet written. No object is deleted twice, and none is deleted while referenced. */
  lemma EveryCountIsExact(run: seq<Action>, s: State, o: Obj)
    requires Reached(run, s) && o in s.objs
    ensures s.objs[o].count ==
      |Pointing(s, o)| - |(set c | c in Pointing(s, o) && Suspended(s, c))| + |CarryingThreads(s, o)|
    ensures 0 <= s.objs[o].count <= |s.cells| + |s.frames|
    ensures s.objs[o].deleted <= 1
    ensures s.objs[o].deleted == 1 ==> HoldingCells(s, o) == {} && CarryingThreads(s, o) == {}
  {
    ReachedInv(run, s);
    CountFormula(s, o);
  }

  lemma CountFormula(s: State, o: Obj)
    requires Counted(s) && o in s.objs
    ensures s.objs[o].count ==
      |Pointing(s, o)| - |(set c | c in Pointing(s, o) && Suspended(s, c))| + |CarryingThreads(s, o)|
    ensures 0 <= s.objs[o].count <= |s.cells| + |s.frames|
    ensures s.objs[o].count == 0 ==> HoldingCells(s, o) == {} && CarryingThreads(s, o) == {}
  {
    var suspended := set c | c in Pointing(s, o) && Suspended(s, c);
    assert HoldingCells(s, o) == Pointing(s, o) - suspended;
    SubsetSize(HoldingCells(s, o), s.cells.Keys);
    SubsetSize(CarryingThreads(s, o), s.frames.Keys);
  }

  /** A cell that no running operation may write, and that points at an object, keeps it alive. */
  lemma PointerIsLive(run: seq<Action>, s: State, c: Cell)
    requires Reached(run, s) && c in s.cells && s.cells[c].To?
    requires forall t | t in s.frames :: c !in s.frames[t].op.Writes()
    ensures s.cells[c].obj in s.objs
    ensures s.objs[s.cells[c].obj].deleted == 0 && s.objs[s.cells[c].obj].count >= 1
  {
    ReachedInv(run, s);
    var o := s.cells[c].obj;
    forall u | u in s.frames
      ensures !Suspends(s.frames[u], c)
    {
      SuspendsItsOwn(s.frames[u], c);
    }
    assert c in HoldingCells(s, o);
    assert Known(s, s.cells[c]);
  }

  /** Whenever all operations have finished, each object's count is the number of cells pointing at
      it, and it has been deleted exactly once if there are none and not at all if there are some. */
  lemma AtRest(run: seq<Action>, s: State, o: Obj)
    requires Reached(run, s) && s.frames == map[] && o in s.objs
    ensures s.objs[o].count == |Pointing(s, o)|
    ensures s.objs[o].deleted == if Pointing(s, o) == {} then 1 else 0
  {
    ReachedInv(run, s);
    assert HoldingCells(s, o) == Pointing(s, o);
    assert CarryingThreads(s, o) == {};
  }

  // ----- what an operation leaves in its cells

  /** The cells after an operation that began with the cells of `before`. */
  ghost predicate Leaves(op: Op, before: State, after: State) {
    match op
    case Make(dst) => dst in after.cells && after.cells[dst].To? && after.cells[dst].obj !in before.objs
    case Copy(dst, src) => HoldsSource(dst, src, before, after) && HoldsSource(src, src, before, after)
    case Move(dst, src) => HoldsSource(dst, src, before, after) && src in after.cells && after.cells[src] == Null
    case Destroy(dst) => dst !in after.cells
    case Assign(dst, src) => HoldsSource(dst, src, before, after) && HoldsSource(src, src, before, after)
    case MoveAssign(dst, src) =>
      (dst != src ==> HoldsSource(dst, src, before, after)) && src in after.cells && after.cells[src] == Null
    case Clear(dst) => dst in after.cells && after.cells[dst] == Null
  }

  /** Cell `c` holds what cell `src` held before. */
  ghost predicate HoldsSource(c: Cell, src: Cell, before: State, after: State) {
    c in after.cells && src in before.cells && after.cells[c] == before.cells[src]
  }

  /** Thread `t` began `op` in state `a`; it is still inside when the actions `mid`, its own and those of
      other threads, have led to `s`. */
  ghost predicate Inside(a: State, t: Tid, op: Op, mid: seq<Action>, s: State) {
    && t in s.frames
    && if mid == [] then CanBegin(a, t, op) && s == Begin(a, t, op)
       else
         var n := |mid| - 1;
         exists before :: Inside(a, t, op, mid[..n], before) && Enabled(before, mid[n]) && s == Act(before, mid[n])
  }

  /** What is known of an operation that began in `a` and is now at `f`: its source is as it was, and what it
      makes is new. */
  ghost predicate Underway(a: State, op: Op, s: State, f: Frame) {
    && f.op == op && (forall o | o in a.objs :: o < s.next)
    && (op.HasSource() ==> HoldsSource(op.src, op.src, a, s))
    && (op.Make? && f.pc != Start ==> f.otherPtr.To? && f.otherPtr.obj !in a.objs)
  }

  /** How many steps thread `t` takes among `mid`. */
  function OwnSteps(mid: seq<Action>, t: Tid): (n: nat) {
    if mid == [] then 0
    else OwnSteps(mid[..|mid| - 1], t) + if mid[|mid| - 1] == Steps(t) then 1 else 0
  }

  /** The most steps an operation takes. */
  function MostSteps(op: Op): (n: nat) {
    if op.Assign? || op.MoveAssign? then 7 else if op.Clear? then 5 else if op.Destroy? then 4 else 3
  }

  /** The most steps that are left of an operation. */
  function StepsLeft(op: Op, pc: Pc): (n: nat) {
    match pc
    case Start => MostSteps(op)
    case ReadOther => if op.Assign? then 6 else 3
    case Inc => if op.Assign? then 5 else 1
    case Dec => MostSteps(op) - if op.Assign? then 3 else 1
    case Delete => MostSteps(op) - if op.Assign? then 4 else 2
    case Recheck => if op.MoveAssign? then 4 else 2
    case Write => if op.Constructs() || op.MoveAssign? then 2 else 1
    case WriteNull => 1
  }

  /** A step from `f` that led to `s` leaves less to do, or the operation has done what it is for. */
  ghost predicate GoesOn(a: State, op: Op, s: State, t: Tid, f: Frame) {
    if t in s.frames then
      Underway(a, op, s, s.frames[t]) && StepsLeft(op, s.frames[t].pc) < StepsLeft(op, f.pc)
    else Leaves(op, a, s)
  }

  lemma StartGoesOn(a: State, op: Op, s: State, t: Tid, f: Frame)
    requires t in s.frames && s.frames[t] == f && f.pc == Start && FrameOk(s, f) && Underway(a, op, s, f)
    ensures GoesOn(a, op, StepStart(s, t, f), t, f)
  {
  }

  lemma ReadOtherGoesOn(a: State, op: Op, s: State, t: Tid, f: Frame)
    requires t in s.frames && s.frames[t] == f && f.pc == ReadOther && FrameOk(s, f) && Underway(a, op, s, f)
    ensures GoesOn(a, op, StepReadOther(s, t, f), t, f)
  {
  }

  lemma IncGoesOn(a: State, op: Op, s: State, t: Tid, f: Frame)
    requires t in s.frames && s.frames[t] == f && f.pc == Inc && FrameOk(s, f) && Underway(a, op, s, f)
    ensures GoesOn(a, op, StepInc(s, t, f), t, f)
  {
  }

  lemma DecGoesOn(a: State, op: Op, s: State, t: Tid, f: Frame)
    requires t in s.frames && s.frames[t] == f && f.pc == Dec && FrameOk(s, f) && Underway(a, op, s, f)
    ensures GoesOn(a, op, StepDec(s, t, f), t, f)
  {
  }

  lemma DeleteGoesOn(a: State, op: Op, s: State, t: Tid, f: Frame)
    requires t in s.frames && s.frames[t] == f && f.pc == Delete && FrameOk(s, f) && Underway(a, op, s, f)
    ensures GoesOn(a, op, StepDelete(s, t, f), t, f)
  {
  }

  lemma RecheckGoesOn(a: State, op: Op, s: State, t: Tid, f: Frame)
    requires t in s.frames && s.frames[t] == f && f.pc == Recheck && FrameOk(s, f) && Underway(a, op, s, f)
    ensures GoesOn(a, op, StepRecheck(s, t, f), t, f)
  {
  }

  lemma WriteGoesOn(a: State, op: Op, s: State, t: Tid, f: Frame)
    requires t in s.frames && s.frames[t] == f && f.pc == Write && FrameOk(s, f) && Underway(a, op, s, f)
    ensures GoesOn(a, op, StepWrite(s, t, f), t, f)
  {
  }

  lemma WriteNullGoesOn(a: State, op: Op, s: State, t: Tid, f: Frame)
    requires t in s.frames && s.frames[t] == f && f.pc == WriteNull && FrameOk(s, f) && Underway(a, op, s, f)
    ensures GoesOn(a, op, StepWriteNull(s, t, f), t, f)
  {
  }

  lemma OwnStepGoesOn(a: State, op: Op, s: State, t: Tid, f: Frame)
    requires CanStep(s, t) && s.frames[t] == f && FrameOk(s, f) && Underway(a, op, s, f)
    ensures GoesOn(a, op, Step(s, t), t, f)
  {
    hide FrameOk, Underway, GoesOn;
    hide StepStart, StepReadOther, StepInc, StepDec, StepDelete, StepRecheck, StepWrite, StepWriteNull;
    match f.pc
    case Start => StartGoesOn(a, op, s, t, f);
    case ReadOther => ReadOtherGoesOn(a, op, s, t, f);
    case Inc => IncGoesOn(a, op, s, t, f);
    case Dec => DecGoesOn(a, op, s, t, f);
    case Delete => DeleteGoesOn(a, op, s, t, f);
    case Recheck => RecheckGoesOn(a, op, s, t, f);
    case Write => WriteGoesOn(a, op, s, t, f);
    case WriteNull => WriteNullGoesOn(a, op, s, t, f);
  }

  lemma NextGrows(s: State, u: Tid, f: Frame)
    requires CanStep(s, u) && s.frames[u] == f
    ensures s.next <= Step(s, u).next
  {
    hide Goto, Finish, SetCell, Touch;
  }

  lemma OtherStepGoesOn(a: State, op: Op, s: State, t: Tid, u: Tid)
    requires WellFormed(s) && t in s.frames && u != t && CanStep(s, u) && Underway(a, op, s, s.frames[t])
    ensures t in Step(s, u).frames && Step(s, u).frames[t] == s.frames[t]
    ensures Underway(a, op, Step(s, u), s.frames[t])
  {
    StepIsLocal(s, u);
    NextGrows(s, u, s.frames[u]);
    assert Compatible(s.frames[u].op, op);
    hide Step, WellFormed, Sound, CanStep;
  }

  lemma ActGoesOn(a: State, t: Tid, op: Op, s: State, action: Action)
    requires Inv(s) && t in s.frames && Underway(a, op, s, s.frames[t]) && Enabled(s, action)
    requires t in Act(s, action).frames
    ensures var s' := Act(s, action);
      && Inv(s') && s'.frames[t].op == op && Underway(a, op, s', s'.frames[t])
      && StepsLeft(op, s'.frames[t].pc) + (if action == Steps(t) then 1 else 0) <= StepsLeft(op, s.frames[t].pc)
  {
    match action
    case Starts(u, other) =>
      BeginKeepsInv(s, u, other);
      hide Inv, StepsLeft;
    case Steps(u) =>
      hide FrameOk, Step, StepsLeft, LifeCycle, Counted;
      StepKeepsInv(s, u);
      FrameIsOk(s, t);
      assert WellFormed(s);
      hide Inv, WellFormed, Underway;
      if u == t {
        OwnStepGoesOn(a, op, s, t, s.frames[t]);
      } else {
        OtherStepGoesOn(a, op, s, t, u);
      }
  }

  lemma BeginIsUnderway(a: State, t: Tid, op: Op)
    requires Inv(a) && CanBegin(a, t, op)
    ensures Underway(a, op, Begin(a, t, op), Begin(a, t, op).frames[t])
  {
    assert PointersKnown(a);
    hide Inv;
  }

  lemma {:induction false} InsideIsUnderway(a: State, t: Tid, op: Op, mid: seq<Action>, s: State)
    requires Inv(a) && Inside(a, t, op, mid, s)
    ensures t in s.frames && Inv(s) && s.frames[t].op == op && Underway(a, op, s, s.frames[t])
    ensures OwnSteps(mid, t) + StepsLeft(op, s.frames[t].pc) <= MostSteps(op)
  {
    hide MostSteps, Inv, Enabled, Act;
    if mid == [] {
      BeginKeepsInv(a, t, op);
      BeginIsUnderway(a, t, op);
    } else {
      hide Underway, StepsLeft;
      var n := |mid| - 1;
      var before :| Inside(a, t, op, mid[..n], before) && Enabled(before, mid[n]) && s == Act(before, mid[n]);
      InsideIsUnderway(a, t, op, mid[..n], before);
      ActGoesOn(a, t, op, before, mid[n]);
    }
  }

  /** Whatever the other threads do meanwhile, an operation that ends has done to its cells what it is for. */
  lemma OperationTakesEffect(run: seq<Action>, a: State, t: Tid, op: Op, mid: seq<Action>, s: State)
    requires Reached(run, a) && Inside(a, t, op, mid, s) && Enabled(s, Steps(t)) && t !in Act(s, Steps(t)).frames
    ensures Leaves(op, a, Act(s, Steps(t)))
  {
    ReachedInv(run, a);
    InsideIsUnderway(a, t, op, mid, s);
    OwnStepGoesOn(a, op, s, t, s.frames[t]);
  }

  lemma OneStepLeft(s: State, t: Tid)
    requires t in s.frames && FrameOk(s, s.frames[t])
    ensures CanStep(s, t) && StepsLeft(s.frames[t].op, s.frames[t].pc) >= 1
  {
  }

  lemma FrameIsOk(s: State, t: Tid)
    requires Inv(s) && t in s.frames
    ensures FrameOk(s, s.frames[t])
  {
    hide FrameOk, LifeCycle, Counted;
  }

  /** An operation that is not over has taken fewer steps than the most it takes, whatever the other threads
      do, and can take the next. */
  lemma OperationEnds(run: seq<Action>, a: State, t: Tid, op: Op, mid: seq<Action>, s: State)
    requires Reached(run, a) && Inside(a, t, op, mid, s)
    ensures OwnSteps(mid, t) < MostSteps(op) && Enabled(s, Steps(t))
  {
    hide Reached, Inside, Underway, StepsLeft, MostSteps, Inv, CanStep;
    ReachedInv(run, a);
    InsideIsUnderway(a, t, op, mid, s);
    hide FrameOk;
    FrameIsOk(s, t);
    OneStepLeft(s, t);
  }

  /** Letting the threads of `schedule` take a step each, in that order, ends with an access to an object
      that was deleted. */
  ghost predicate TouchesDead(s: State, schedule: seq<Tid>)
    decreases |schedule|
  {
    if schedule == [] then s.touchedDead
    else CanStep(s, schedule[0]) && TouchesDead(Step(s, schedule[0]), schedule[1..])
  }

  /** Why operations must not share a cell that one of them writes: in every reached state at rest, two
      threads that reset a cell holding the only reference at once both release it, and the second accesses
      the object after the first has deleted it. */
  lemma SharedCellIsUnsafe(run: seq<Action>, s: State, c: Cell, o: Obj, t: Tid, u: Tid)
    requires Reached(run, s) && s.frames == map[] && o in s.objs && Pointing(s, o) == {c} && t != u
    ensures CanBegin(s, t, Clear(c)) && !CanBegin(Begin(s, t, Clear(c)), u, Clear(c))
    ensures !s.touchedDead && TouchesDead(Begin(Begin(s, t, Clear(c)), u, Clear(c)), [t, u, t, t, u])
  {
    hide Reached, LifeCycle, Counted, WellFormed, TouchesDead;
    ReachedInv(run, s);
    AtRest(run, s, o);
    assert c in Pointing(s, o);
    hide Inv;
    BothRelease(s, c, o, t, u);
  }

  lemma BothRelease(s: State, c: Cell, o: Obj, t: Tid, u: Tid)
    requires s.frames == map[] && o in s.objs && s.objs[o] == Life(1, 0)
    requires c in s.cells && s.cells[c] == To(o) && t != u
    ensures TouchesDead(Begin(Begin(s, t, Clear(c)), u, Clear(c)), [t, u, t, t, u])
  {
    var f := Frame(Clear(c), Start, Null, Null);
    var g := f.(oldPtr := To(o));
    var a := Begin(Begin(s, t, Clear(c)), u, Clear(c));
    assert a.frames[t] == a.frames[u] == f;
    var a1 := Step(a, t);
    assert a1.frames[t] == g.(pc := Dec) && a1.frames[u] == f && a1.cells == s.cells && a1.objs == s.objs;
    var b := Step(a1, u);
    assert b.frames[t] == b.frames[u] == g.(pc := Dec) && b.objs == s.objs;
    var b1 := Step(b, t);
    assert b1.frames[t] == g.(pc := Delete) && b1.frames[u] == g.(pc := Dec) && b1.objs[o] == Life(0, 0);
    var d := Step(b1, t);
    assert d.frames[u] == g.(pc := Dec) && d.objs[o] == Life(0, 1);
    var e := Step(d, u);
    assert e.touchedDead;
    hide Step;
    assert TouchesDead(e, []);
    OneStepLess(d, u, []);
    OneStepLess(b1, t, [u]);
    OneStepLess(b, t, [t, u]);
    OneStepLess(a1, u, [t, t, u]);
    OneStepLess(a, t, [u, t, t, u]);
  }

  lemma OneStepLess(s: State, t: Tid, rest: seq<Tid>)
    requires CanStep(s, t) && TouchesDead(Step(s, t), rest)
    ensures TouchesDead(s, [t] + rest)
  {
    assert ([t] + rest)[1..] == rest;
  }

  /** Steps of the threads of `schedule`, one each, in that order and by no rule, lead from `s` to `r`. */
  ghost predicate Leads(s: State, schedule: seq<Tid>, r: State)
    decreases |schedule|
  {
    if schedule == [] then r == s
    else CanStep(s, schedule[0]) && Leads(Step(s, schedule[0]), schedule[1..], r)
  }

  /** Thread `t` is past the start of `op` and has read `p` from the cell. */
  ghost predicate HasRead(s: State, t: Tid, op: Op, p: Ptr) {
    t in s.frames ==> s.frames[t].op == op && s.frames[t].pc != Start && s.frames[t].oldPtr == p
  }

  lemma StartReads(s: State, t: Tid)
    requires CanStep(s, t) && s.frames[t].pc == Start
    requires s.frames[t].op.Assign? || s.frames[t].op.MoveAssign? || s.frames[t].op.Clear?
    ensures HasRead(Step(s, t), t, s.frames[t].op, Value(s, s.frames[t].op.dst))
  {
  }

  lemma StepKeepsRead(s: State, u: Tid, f: Frame, t: Tid, op: Op, p: Ptr)
    requires CanStep(s, u) && s.frames[u] == f && HasRead(s, t, op, p)
    ensures HasRead(Step(s, u), t, op, p)
  {
    hide HasRead, Step;
    if u == t {
      OwnStepKeepsRead(s, t, f, op, p);
    } else {
      OtherStepKeepsRead(s, u, f, t, op, p);
    }
  }

  lemma OwnStepKeepsRead(s: State, t: Tid, f: Frame, op: Op, p: Ptr)
    requires CanStep(s, t) && s.frames[t] == f && HasRead(s, t, op, p)
    ensures HasRead(Step(s, t), t, op, p)
  {
    hide SetCell, Touch, Value, LifeOf, StepStart;
    if f.pc in {ReadOther, Inc, Dec} {
      hide StepDelete, StepRecheck, StepWrite, StepWriteNull;
    } else {
      hide StepReadOther, StepInc, StepDec;
    }
  }

  lemma OtherStepKeepsRead(s: State, u: Tid, f: Frame, t: Tid, op: Op, p: Ptr)
    requires CanStep(s, u) && s.frames[u] == f && HasRead(s, t, op, p) && u != t
    ensures HasRead(Step(s, u), t, op, p)
  {
    OtherFramesStay(s, u, f, t);
    hide Step;
  }

  lemma OtherFramesStay(s: State, u: Tid, f: Frame, t: Tid)
    requires CanStep(s, u) && s.frames[u] == f && u != t
    ensures var r := Step(s, u); (t in r.frames <==> t in s.frames) && (t in r.frames ==> r.frames[t] == s.frames[t])
  {
    OtherFrames(s, u, f);
    var r := Step(s, u);
    hide Step;
    assert t in r.frames <==> t in r.frames - {u};
    assert t in s.frames <==> t in s.frames - {u};
  }

  lemma OtherFrames(s: State, u: Tid, f: Frame)
    requires CanStep(s, u) && s.frames[u] == f
    ensures Step(s, u).frames - {u} == s.frames - {u}
  {
    hide Goto, Finish, SetCell, Touch, Value, LifeOf;
  }

  lemma {:induction false} KeepsRead(s: State, schedule: seq<Tid>, r: State, t: Tid, op: Op, p: Ptr)
    requires Leads(s, schedule, r) && HasRead(s, t, op, p)
    ensures HasRead(r, t, op, p)
    decreases |schedule|
  {
    if schedule != [] {
      hide Step, CanStep, HasRead;
      StepKeepsRead(s, schedule[0], s.frames[schedule[0]], t, op, p);
      KeepsRead(Step(s, schedule[0]), schedule[1..], r, t, op, p);
    }
  }

  /** What the second read is for: whatever other threads do to the cell, by the rule or against it, a race is
      reported exactly when an assignment or reset finds another pointer than the one it read at its start. */
  lemma RaceIsReported(s: State, t: Tid, schedule: seq<Tid>, r: State)
    requires t in s.frames && s.frames[t].pc == Start
    requires s.frames[t].op.Assign? || s.frames[t].op.MoveAssign? || s.frames[t].op.Clear?
    requires Leads(s, [t] + schedule, r) && t in r.frames && r.frames[t].pc == Recheck && !r.raced
    ensures CanStep(r, t)
    ensures Step(r, t).raced <==> Value(r, s.frames[t].op.dst) != Value(s, s.frames[t].op.dst)
  {
    assert ([t] + schedule)[1..] == schedule;
    StartReads(s, t);
    KeepsRead(Step(s, t), schedule, r, t, s.frames[t].op, Value(s, s.frames[t].op.dst));
    hide Leads;
  }

  /** Such states are reached: one thread makes an object. */
  lemma OneReferenceIsReached(t: Tid, c: Cell)
    ensures exists run, s :: Reached(run, s) && s.frames == map[] && 0 in s.objs && Pointing(s, 0) == {c}
  {
    var s1, s2, s3, s4 := MakeFromNothing(t, c);
    hide Step, CanBegin, CanStep, Begin, Pointing;
    var begin, step := Starts(t, Make(c)), Steps(t);
    assert Reached([], INITIAL);
    var run1 := OneMoreAction([], INITIAL, begin);
    var run2 := OneMoreAction(run1, s1, step);
    var run3 := OneMoreAction(run2, s2, step);
    var run4 := OneMoreAction(run3, s3, step);
    assert Reached(run4, s4);
  }

  lemma MakeFromNothing(t: Tid, c: Cell) returns (s1: State, s2: State, s3: State, s4: State)
    ensures CanBegin(INITIAL, t, Make(c)) && s1 == Begin(INITIAL, t, Make(c))
    ensures CanStep(s1, t) && s2 == Step(s1, t) && CanStep(s2, t) && s3 == Step(s2, t)
    ensures CanStep(s3, t) && s4 == Step(s3, t)
    ensures s4.frames == map[] && 0 in s4.objs && Pointing(s4, 0) == {c}
  {
    var f := Frame(Make(c), Start, Null, Null);
    s1 := Begin(INITIAL, t, Make(c));
    assert s1.frames == map[t := f];
    s2 := Step(s1, t);
    assert s2.frames == map[t := f.(otherPtr := To(0), pc := Write)] && s2.objs == map[0 := Life(0, 0)];
    s3 := Step(s2, t);
    assert s3.frames == map[t := f.(otherPtr := To(0), pc := Inc)] && s3.cells == map[c := To(0)];
    s4 := Step(s3, t);
    assert s4.frames == map[] && s4.cells == map[c := To(0)];
  }

  lemma OneMoreAction(run: seq<Action>, s: State, a: Action) returns (more: seq<Action>)
    requires Reached(run, s) && Enabled(s, a)
    ensures Reached(more, Act(s, a))
  {
    hide Step, CanBegin, CanStep, Begin;
    more := run + [a];
    assert more[..|more| - 1] == run && more[|more| - 1] == a;
  }
}
