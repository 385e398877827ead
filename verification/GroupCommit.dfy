/**
 The group commit protocol as a state machine. Each call of group is an
 operation with a program counter. The first caller to find no flush under way
 becomes the leader; a leader commits everything queued and then hands the
 lead to the first waiter instead of looping.
 */
module GroupCommit {
  import opened Bytes

  type Op = nat

  /** What travels over an operation's own channel (capacity one). */
  datatype Msg = Lead | Result(ok: bool)

  datatype Pc =
    | NotCalled
    | Waiting
    | Leading                                    // about to take the queue
    | HasGroup(group: seq<Op>)                   // about to commit it
    | Notifying(group: seq<Op>, k: nat, ok: bool)
    | Handing(ok: bool)                          // about to pass the lead on
    | Returned(ok: bool)

  /** One durable, applied (or failed) commit. */
  datatype Group = Group(ops: seq<Op>, ok: bool)

  /**
   queue and flushing are the code's fields. sent counts the values ever put on
   a channel; groups and groupOf record the commits; token names the operation
   that leads or has been told to.
   */
  datatype State = State(
    queue: seq<Op>, flushing: bool, pcs: map<Op, Pc>, chans: map<Op, seq<Msg>>,
    sent: map<Op, nat>, groups: seq<Group>, groupOf: map<Op, nat>, token: Option<Op>)

  function PcOf(s: State, p: Op): Pc { if p in s.pcs then s.pcs[p] else NotCalled }
  function ChanOf(s: State, p: Op): seq<Msg> { if p in s.chans then s.chans[p] else [] }
  function SentTo(s: State, p: Op): nat { if p in s.sent then s.sent[p] else 0 }

  function Goto(s: State, p: Op, pc: Pc): State { s.(pcs := s.pcs[p := pc]) }

  function Send(s: State, q: Op, m: Msg): State {
    s.(chans := s.chans[q := ChanOf(s, q) + [m]], sent := s.sent[q := SentTo(s, q) + 1])
  }

  // ---- Steps ----

  datatype Step =
    | Enter(p: Op)
    | Receive(p: Op)
    | Take(p: Op)
    | Commit(p: Op, success: bool)
    | Notify(p: Op)
    | Hand(p: Op)

  predicate Enabled(s: State, e: Step) {
    match e
    case Enter(p) => PcOf(s, p) == NotCalled
    case Receive(p) => PcOf(s, p) == Waiting && ChanOf(s, p) != []
    case Take(p) => PcOf(s, p) == Leading
    case Commit(p, _) => PcOf(s, p).HasGroup?
    case Notify(p) =>
      var pc := PcOf(s, p);
      pc.Notifying? && (pc.k < |pc.group| && pc.group[pc.k] != p ==> ChanOf(s, pc.group[pc.k]) == [])
    case Hand(p) => PcOf(s, p).Handing? && (s.queue != [] ==> ChanOf(s, s.queue[0]) == [])
  }

  /** groupOf after the operations in g commit as group number n. */
  function Mark(m: map<Op, nat>, g: seq<Op>, n: nat): map<Op, nat> {
    map q | q in m.Keys + (set x | x in g) :: if q in g then n else m[q]
  }

  function Do(s: State, e: Step): State
    requires Enabled(s, e)
  {
    match e
    case Enter(p) =>
      var lead := !s.flushing;
      Goto(s, p, if lead then Leading else Waiting).(
        queue := s.queue + [p], flushing := true, token := if lead then Some(p) else s.token)
    case Receive(p) =>
      var m := ChanOf(s, p)[0];
      Goto(s, p, if m.Lead? then Leading else Returned(m.ok)).(chans := s.chans[p := ChanOf(s, p)[1..]])
    case Take(p) =>
      Goto(s, p, HasGroup(s.queue)).(queue := [])
    case Commit(p, ok) =>
      var g := PcOf(s, p).group;
      Goto(s, p, Notifying(g, 0, ok)).(groups := s.groups + [Group(g, ok)], groupOf := Mark(s.groupOf, g, |s.groups|))
    case Notify(p) =>
      var pc := PcOf(s, p);
      if pc.k < |pc.group| then
        var t := Goto(s, p, pc.(k := pc.k + 1));
        if pc.group[pc.k] == p then t else Send(t, pc.group[pc.k], Result(pc.ok))
      else Goto(s, p, Handing(pc.ok))
    case Hand(p) =>
      var t := Goto(s, p, Returned(PcOf(s, p).ok));
      if s.queue == [] then t.(flushing := false, token := None)
      else Send(t, s.queue[0], Lead).(token := Some(s.queue[0]))
  }

  // ---- Invariant ----

  predicate LeaderPc(pc: Pc) {
    pc.Leading? || pc.HasGroup? || pc.Notifying? || pc.Handing?
  }

  ghost predicate Distinct(q: seq<Op>) {
    forall i, j :: 0 <= i < j < |q| ==> q[i] != q[j]
  }

  /** Operations of the leader's group that still have to be told their result. */
  function Pending(s: State): seq<Op> {
    match s.token
    case None => []
    case Some(p) =>
      match PcOf(s, p)
      case HasGroup(g) => g
      case Notifying(g, k, _) => if k <= |g| then g[k..] else []
      case _ => []
  }

  predicate Outcome(s: State, p: Op, ok: bool) {
    p in s.groupOf && s.groupOf[p] < |s.groups| && s.groups[s.groupOf[p]].ok == ok
  }

  /** Everything the invariant says about one operation. */
  ghost predicate OpOk(s: State, p: Op) {
    var pc, ch := PcOf(s, p), ChanOf(s, p);
    // leadership belongs to the token holder and nobody else
    && (LeaderPc(pc) || (pc == Waiting && ch == [Lead]) <==> s.token == Some(p))
    // the queue holds exactly those not yet taken into a group
    && (p in s.queue ==> p !in s.groupOf && (pc == Leading || (pc == Waiting && (ch == [] || ch == [Lead]))))
    && (pc == Leading || ch == [Lead] ==> p in s.queue)
    // a channel carries at most one value in its whole life
    && SentTo(s, p) <= 1
    && (ch != [] ==> pc == Waiting && |ch| == 1 && SentTo(s, p) == 1)
    && (pc == NotCalled || (pc == Waiting && ch == []) ==> SentTo(s, p) == 0)
    // nobody waits forgotten
    && (pc == Waiting && ch == [] ==> p in s.queue || p in Pending(s))
    && (p in Pending(s) ==> p !in s.queue && (s.token == Some(p) || (pc == Waiting && ch == [])))
    // results are those of the group the operation was committed in
    && (pc == NotCalled ==> p !in s.groupOf)
    && (pc.Handing? || pc.Returned? ==> Outcome(s, p, pc.ok))
    && (|ch| == 1 && ch[0].Result? ==> Outcome(s, p, ch[0].ok))
  }

  ghost predicate GroupsOk(s: State) {
    && (forall p :: p in s.groupOf ==> s.groupOf[p] < |s.groups|)
    && (forall p: Op, i :: 0 <= i < |s.groups| ==> (p in s.groups[i].ops <==> p in s.groupOf && s.groupOf[p] == i))
    && (forall i :: 0 <= i < |s.groups| ==> s.groups[i].ops != [] && Distinct(s.groups[i].ops))
  }

  ghost predicate LeaderOk(s: State, p: Op) {
    match PcOf(s, p)
    case HasGroup(g) => p in g && Distinct(g) && forall q :: q in g ==> q !in s.groupOf
    case Notifying(g, k, ok) => k <= |g| && s.groups != [] && s.groups[|s.groups| - 1] == Group(g, ok) && p in g
    case _ => true
  }

  ghost predicate Shape(s: State) {
    && (s.token == None <==> !s.flushing)
    && (!s.flushing ==> s.queue == [])
    && Distinct(s.queue) && Distinct(Pending(s))
    && (s.token.Some? ==> LeaderOk(s, s.token.value))
  }

  ghost predicate Inv(s: State) {
    Shape(s) && GroupsOk(s) && forall p: Op :: OpOk(s, p)
  }

  ghost function Initial(): State {
    State([], false, map[], map[], map[], [], map[], None)
  }

  lemma InitialInv()
    ensures Inv(Initial())
  {
  }

  lemma SameGroups(s: State, t: State)
    requires GroupsOk(s) && s.groups == t.groups && s.groupOf == t.groupOf
    ensures GroupsOk(t)
  {
  }

  /** An operation a step leaves alone, where what it depends on stays too. */
  ghost predicate Untouched(s: State, t: State, q: Op) {
    && PcOf(t, q) == PcOf(s, q) && ChanOf(t, q) == ChanOf(s, q) && SentTo(t, q) == SentTo(s, q)
    && (q in t.queue <==> q in s.queue) && (q in Pending(t) <==> q in Pending(s))
    && (t.token == Some(q) <==> s.token == Some(q)) && (q in t.groupOf <==> q in s.groupOf)
    && (q in s.groupOf ==> forall ok :: Outcome(s, q, ok) ==> Outcome(t, q, ok))
  }

  lemma UntouchedOk(s: State, t: State, q: Op)
    requires OpOk(s, q) && Untouched(s, t, q)
    ensures OpOk(t, q)
  {
    hide Pending;
  }

  lemma SameOutcomes(s: State, t: State)
    requires s.groups == t.groups && s.groupOf == t.groupOf
    ensures forall q, ok :: Outcome(s, q, ok) ==> Outcome(t, q, ok)
  {
  }

  lemma EnterEffect(s: State, p: Op)
    requires Enabled(s, Enter(p))
    ensures var t := Do(s, Enter(p));
            && t == s.(pcs := t.pcs, queue := s.queue + [p], flushing := true, token := if s.flushing then s.token else Some(p))
            && PcOf(t, p) == (if s.flushing then Waiting else Leading) && forall q :: q != p ==> PcOf(t, q) == PcOf(s, q)
  {
  }

  lemma SameChans(s: State, t: State)
    requires s.chans == t.chans && s.sent == t.sent
    ensures forall q :: ChanOf(t, q) == ChanOf(s, q) && SentTo(t, q) == SentTo(s, q)
  {
  }

  lemma EnterStep(s: State, p: Op)
    requires Inv(s) && Enabled(s, Enter(p))
    ensures Inv(Do(s, Enter(p)))
  {
    hide Do, GroupsOk, ChanOf, SentTo;
    var t := Do(s, Enter(p));
    EnterEffect(s, p);
    SameChans(s, t);
    SameGroups(s, t);
    SameOutcomes(s, t);
    assert OpOk(s, p);
    assert Pending(t) == Pending(s);
    assert OpOk(t, p);
    forall q: Op | q != p ensures OpOk(t, q) {
      assert OpOk(s, q);
      UntouchedOk(s, t, q);
    }
  }

  lemma ReceiveEffect(s: State, p: Op)
    requires Enabled(s, Receive(p))
    ensures var t := Do(s, Receive(p)); var m := ChanOf(s, p)[0];
            && t == s.(pcs := t.pcs, chans := t.chans) && PcOf(t, p) == (if m.Lead? then Leading else Returned(m.ok))
            && ChanOf(t, p) == ChanOf(s, p)[1..] && SentTo(t, p) == SentTo(s, p)
            && forall q :: q != p ==> PcOf(t, q) == PcOf(s, q) && ChanOf(t, q) == ChanOf(s, q) && SentTo(t, q) == SentTo(s, q)
  {
  }

  lemma ReceiveStep(s: State, p: Op)
    requires Inv(s) && Enabled(s, Receive(p))
    ensures Inv(Do(s, Receive(p)))
  {
    hide Do, GroupsOk, PcOf, ChanOf, SentTo;
    var t := Do(s, Receive(p));
    ReceiveEffect(s, p);
    SameGroups(s, t);
    SameOutcomes(s, t);
    assert OpOk(s, p);
    assert ChanOf(s, p) == [ChanOf(s, p)[0]];
    assert Pending(t) == Pending(s);
    assert OpOk(t, p);
    forall q: Op | q != p ensures OpOk(t, q) {
      assert OpOk(s, q);
      UntouchedOk(s, t, q);
    }
  }

  lemma TakeEffect(s: State, p: Op)
    requires Enabled(s, Take(p))
    ensures var t := Do(s, Take(p));
            && t == s.(pcs := t.pcs, queue := []) && PcOf(t, p) == HasGroup(s.queue)
            && forall q :: q != p ==> PcOf(t, q) == PcOf(s, q)
  {
  }

  lemma TakeStep(s: State, p: Op)
    requires Inv(s) && Enabled(s, Take(p))
    ensures Inv(Do(s, Take(p)))
  {
    hide Do, GroupsOk;
    var t := Do(s, Take(p));
    TakeEffect(s, p);
    SameChans(s, t);
    assert OpOk(s, p);
    assert s.token == Some(p) && Pending(t) == s.queue && Pending(s) == [];
    SameGroups(s, t);
    hide PcOf, ChanOf, SentTo, Pending;
    forall q: Op ensures OpOk(t, q) { assert OpOk(s, q); }
    forall q | q in s.queue ensures q !in t.groupOf { assert OpOk(s, q); }
  }

  lemma CommitGroups(s: State, p: Op, ok: bool)
    requires GroupsOk(s) && PcOf(s, p).HasGroup? && LeaderOk(s, p)
    ensures GroupsOk(Do(s, Commit(p, ok)))
  {
  }

  lemma CommitEffect(s: State, p: Op, ok: bool)
    requires Enabled(s, Commit(p, ok))
    ensures var t := Do(s, Commit(p, ok)); var g := PcOf(s, p).group;
            && t == s.(pcs := t.pcs, groups := s.groups + [Group(g, ok)], groupOf := t.groupOf)
            && PcOf(t, p) == Notifying(g, 0, ok) && (forall q :: q != p ==> PcOf(t, q) == PcOf(s, q))
            && forall q :: if q in g then q in t.groupOf && t.groupOf[q] == |s.groups|
                           else (q in t.groupOf <==> q in s.groupOf) && (q in s.groupOf ==> t.groupOf[q] == s.groupOf[q])
  {
  }

  lemma CommitStep(s: State, p: Op, ok: bool)
    requires Inv(s) && Enabled(s, Commit(p, ok))
    ensures Inv(Do(s, Commit(p, ok)))
  {
    var t := Do(s, Commit(p, ok));
    hide Do;
    CommitEffect(s, p, ok);
    SameChans(s, t);
    assert OpOk(s, p);
    assert s.token == Some(p);
    CommitGroups(s, p, ok);
    hide GroupsOk;
    assert Pending(t) == Pending(s) == PcOf(s, p).group;
    hide PcOf, ChanOf, SentTo, Pending;
    var g := PcOf(s, p).group;
    forall q: Op ensures OpOk(t, q) {
      assert OpOk(s, q);
      if q in g { CommittedOk(s, t, p, q); } else { UntouchedOk(s, t, q); }
    }
  }

  /** A member of the group just committed. */
  lemma CommittedOk(s: State, t: State, p: Op, q: Op)
    requires OpOk(s, q) && s.token == Some(p) == t.token && PcOf(s, p).HasGroup? && PcOf(t, p).Notifying?
    requires q in Pending(s) && q in Pending(t) && q !in s.groupOf && s.queue == t.queue
    requires (q != p ==> PcOf(t, q) == PcOf(s, q)) && ChanOf(t, q) == ChanOf(s, q) && SentTo(t, q) == SentTo(s, q)
    ensures OpOk(t, q)
  {
    hide Pending, PcOf, ChanOf, SentTo;
  }

  lemma PendingShrinks(s: State, t: State, p: Op)
    requires s.token == Some(p) && t.token == Some(p) && Distinct(Pending(s))
    requires PcOf(s, p).Notifying? && PcOf(s, p).k < |PcOf(s, p).group|
    requires PcOf(t, p) == PcOf(s, p).(k := PcOf(s, p).k + 1)
    ensures var x := PcOf(s, p).group[PcOf(s, p).k];
            Distinct(Pending(t)) && x in Pending(s) && |Pending(t)| == |Pending(s)| - 1 && forall q :: q in Pending(t) <==> q in Pending(s) && q != x
  {
    assert Pending(s) == [PcOf(s, p).group[PcOf(s, p).k]] + Pending(t);
  }

  lemma NotifySelfEffect(s: State, p: Op)
    requires Enabled(s, Notify(p)) && (PcOf(s, p).k < |PcOf(s, p).group| ==> PcOf(s, p).group[PcOf(s, p).k] == p)
    ensures var pc := PcOf(s, p); var t := Do(s, Notify(p));
            && t == s.(pcs := t.pcs) && PcOf(t, p) == (if pc.k < |pc.group| then pc.(k := pc.k + 1) else Handing(pc.ok))
            && forall q :: q != p ==> PcOf(t, q) == PcOf(s, q)
  {
  }

  /** The leader passes over itself. */
  lemma NotifySelf(s: State, p: Op)
    requires Inv(s) && Enabled(s, Notify(p)) && PcOf(s, p).k < |PcOf(s, p).group|
    requires PcOf(s, p).group[PcOf(s, p).k] == p
    ensures Inv(Do(s, Notify(p)))
  {
    hide Do;
    var t := Do(s, Notify(p));
    NotifySelfEffect(s, p);
    SameChans(s, t);
    assert OpOk(s, p);
    SameGroups(s, t);
    PendingShrinks(s, t, p);
    hide GroupsOk, Pending, PcOf, ChanOf, SentTo;
    SameOutcomes(s, t);
    assert OpOk(t, p);
    forall q: Op | q != p ensures OpOk(t, q) {
      assert OpOk(s, q);
      UntouchedOk(s, t, q);
    }
  }

  /** What telling x its result changes. */
  lemma NotifyEffect(s: State, p: Op)
    requires Enabled(s, Notify(p)) && PcOf(s, p).k < |PcOf(s, p).group|
    requires PcOf(s, p).group[PcOf(s, p).k] != p
    ensures var pc := PcOf(s, p); var x := pc.group[pc.k]; var t := Do(s, Notify(p));
            && t == s.(pcs := t.pcs, chans := t.chans, sent := t.sent)
            && PcOf(t, p) == pc.(k := pc.k + 1) && ChanOf(t, x) == [Result(pc.ok)] && SentTo(t, x) == SentTo(s, x) + 1
            && (forall q :: q != p ==> PcOf(t, q) == PcOf(s, q))
            && (forall q :: q != x ==> ChanOf(t, q) == ChanOf(s, q) && SentTo(t, q) == SentTo(s, q))
  {
  }

  /** The waiter that has been told. */
  lemma NotifiedOk(s: State, t: State, p: Op)
    requires s.token == Some(p) && OpOk(s, p) && PcOf(s, p).Notifying? && PcOf(s, p).k < |PcOf(s, p).group|
    requires var pc := PcOf(s, p); var x := pc.group[pc.k];
             && x != p && OpOk(s, x) && x in Pending(s) && x !in Pending(t) && Outcome(t, x, pc.ok)
             && t == s.(pcs := t.pcs, chans := t.chans, sent := t.sent)
             && PcOf(t, x) == PcOf(s, x) && ChanOf(t, x) == [Result(pc.ok)] && SentTo(t, x) == SentTo(s, x) + 1
    ensures OpOk(t, PcOf(s, p).group[PcOf(s, p).k])
  {
    hide Pending, ChanOf, SentTo;
  }

  /** The leader that has told it. */
  lemma NotifierOk(s: State, t: State, p: Op)
    requires s.token == Some(p) && OpOk(s, p) && PcOf(s, p).Notifying?
    requires t == s.(pcs := t.pcs, chans := t.chans, sent := t.sent) && PcOf(t, p) == PcOf(s, p).(k := PcOf(s, p).k + 1)
    requires ChanOf(t, p) == ChanOf(s, p) && SentTo(t, p) == SentTo(s, p) && (p in Pending(t) <==> p in Pending(s))
    ensures OpOk(t, p)
  {
    hide Pending, ChanOf, SentTo;
  }

  lemma NotifyOther(s: State, p: Op)
    requires Inv(s) && Enabled(s, Notify(p)) && PcOf(s, p).k < |PcOf(s, p).group|
    requires PcOf(s, p).group[PcOf(s, p).k] != p
    ensures Inv(Do(s, Notify(p)))
  {
    hide Do;
    var t := Do(s, Notify(p));
    var pc := PcOf(s, p);
    var x := pc.group[pc.k];
    NotifyEffect(s, p);
    assert OpOk(s, p) && OpOk(s, x);
    SameGroups(s, t);
    SameOutcomes(s, t);
    assert Outcome(s, x, pc.ok) by { assert x in s.groups[|s.groups| - 1].ops; }
    PendingShrinks(s, t, p);
    NotifiedOk(s, t, p);
    NotifierOk(s, t, p);
    hide GroupsOk, Pending, PcOf, ChanOf, SentTo;
    forall q: Op | q != p && q != x ensures OpOk(t, q) {
      assert OpOk(s, q);
      UntouchedOk(s, t, q);
    }
  }

  lemma NotifyDone(s: State, p: Op)
    requires Inv(s) && Enabled(s, Notify(p)) && PcOf(s, p).k >= |PcOf(s, p).group|
    ensures Inv(Do(s, Notify(p)))
  {
    hide Do;
    var t := Do(s, Notify(p));
    NotifySelfEffect(s, p);
    SameChans(s, t);
    assert OpOk(s, p);
    SameGroups(s, t);
    SameOutcomes(s, t);
    assert Outcome(s, p, PcOf(s, p).ok) by { assert p in s.groups[|s.groups| - 1].ops; }
    assert Pending(s) == [] && Pending(t) == [];
    hide GroupsOk, Pending, PcOf, ChanOf, SentTo;
    assert OpOk(t, p);
    forall q: Op | q != p ensures OpOk(t, q) {
      assert OpOk(s, q);
      UntouchedOk(s, t, q);
    }
  }

  lemma HandBackEffect(s: State, p: Op)
    requires Enabled(s, Hand(p)) && s.queue == []
    ensures var t := Do(s, Hand(p));
            && t == s.(pcs := t.pcs, flushing := false, token := None) && PcOf(t, p) == Returned(PcOf(s, p).ok)
            && forall q :: q != p ==> PcOf(t, q) == PcOf(s, q)
  {
  }

  lemma HandBack(s: State, p: Op)
    requires Inv(s) && Enabled(s, Hand(p)) && s.queue == []
    ensures Inv(Do(s, Hand(p)))
  {
    hide Do, GroupsOk;
    var t := Do(s, Hand(p));
    HandBackEffect(s, p);
    SameChans(s, t);
    assert OpOk(s, p);
    assert Pending(s) == [] && Pending(t) == [];
    SameGroups(s, t);
    SameOutcomes(s, t);
    hide Pending, PcOf, ChanOf, SentTo;
    assert OpOk(t, p);
    forall q: Op | q != p ensures OpOk(t, q) {
      assert OpOk(s, q);
      UntouchedOk(s, t, q);
    }
  }

  lemma HandEffect(s: State, p: Op)
    requires Enabled(s, Hand(p)) && s.queue != [] && s.queue[0] != p
    ensures var x := s.queue[0]; var t := Do(s, Hand(p));
            && t == s.(pcs := t.pcs, chans := t.chans, sent := t.sent, token := Some(x))
            && PcOf(t, p) == Returned(PcOf(s, p).ok) && ChanOf(t, x) == [Lead] && SentTo(t, x) == SentTo(s, x) + 1
            && (forall q :: q != p ==> PcOf(t, q) == PcOf(s, q))
            && (forall q :: q != x ==> ChanOf(t, q) == ChanOf(s, q) && SentTo(t, q) == SentTo(s, q))
  {
  }

  lemma HandOver(s: State, p: Op)
    requires Inv(s) && Enabled(s, Hand(p)) && s.queue != []
    ensures Inv(Do(s, Hand(p)))
  {
    hide Do, GroupsOk;
    var t := Do(s, Hand(p));
    var x := s.queue[0];
    assert OpOk(s, p) && OpOk(s, x);
    HandEffect(s, p);
    assert Pending(s) == [] && Pending(t) == [];
    SameGroups(s, t);
    SameOutcomes(s, t);
    hide Pending, PcOf, ChanOf, SentTo;
    assert OpOk(t, x);
    assert OpOk(t, p);
    forall q: Op | q != p && q != x ensures OpOk(t, q) {
      assert OpOk(s, q);
      UntouchedOk(s, t, q);
    }
  }

  lemma StepKeepsInv(s: State, e: Step)
    requires Inv(s) && Enabled(s, e)
    ensures Inv(Do(s, e))
  {
    hide Inv, Do;
    match e {
      case Enter(p) => EnterStep(s, p);
      case Receive(p) => ReceiveStep(s, p);
      case Take(p) => TakeStep(s, p);
      case Commit(p, ok) => CommitStep(s, p, ok);
      case Notify(p) =>
        var pc := PcOf(s, p);
        if pc.k >= |pc.group| { NotifyDone(s, p); }
        else if pc.group[pc.k] == p { NotifySelf(s, p); }
        else { NotifyOther(s, p); }
      case Hand(p) => if s.queue == [] { HandBack(s, p); } else { HandOver(s, p); }
    }
  }

  ghost predicate Run(s: State, es: seq<Step>)
    decreases |es|
  {
    es == [] || (Enabled(s, es[0]) && Run(Do(s, es[0]), es[1..]))
  }

  ghost function StateAfter(s: State, es: seq<Step>): State
    requires Run(s, es)
    decreases |es|
  {
    if es == [] then s else StateAfter(Do(s, es[0]), es[1..])
  }

  lemma {:induction false} RunKeepsInv(s: State, es: seq<Step>)
    requires Inv(s) && Run(s, es)
    ensures Inv(StateAfter(s, es))
    decreases |es|
  {
    hide Inv, Enabled, Do;
    if es != [] {
      StepKeepsInv(s, es[0]);
      RunKeepsInv(Do(s, es[0]), es[1..]);
    }
  }

  // ---- What callers get ----

  ghost predicate InGroup(s: State, p: Op, i: int) {
    0 <= i < |s.groups| && p in s.groups[i].ops
  }

  lemma ReturnedInGroup(s: State, p: Op)
    requires Inv(s) && PcOf(s, p).Returned?
    ensures p in s.groupOf && s.groupOf[p] < |s.groups|
    ensures p in s.groups[s.groupOf[p]].ops && s.groups[s.groupOf[p]].ok == PcOf(s, p).ok
  {
    assert OpOk(s, p);
  }

  /**
   In every reachable state: at most one leader; no flush means an empty queue
   and no pending hand-off; a channel has received at most one value; a caller
   that has returned was committed in exactly one group and got that group's
   result; and a group about to be committed is never empty.
   */
  lemma GroupCommitIsSafe(es: seq<Step>, p: Op, q: Op)
    requires Run(Initial(), es)
    ensures var s := StateAfter(Initial(), es);
            && (LeaderPc(PcOf(s, p)) && LeaderPc(PcOf(s, q)) ==> p == q)
            && (!s.flushing ==> s.queue == [] && !LeaderPc(PcOf(s, p)) && ChanOf(s, p) != [Lead])
            && SentTo(s, p) <= 1
            && (forall i, j :: InGroup(s, p, i) && InGroup(s, p, j) ==> i == j)
            && (PcOf(s, p).Returned? ==> exists i :: InGroup(s, p, i) && s.groups[i].ok == PcOf(s, p).ok)
            && (PcOf(s, p).HasGroup? ==> p in PcOf(s, p).group)
  {
    InitialInv();
    RunKeepsInv(Initial(), es);
    var s := StateAfter(Initial(), es);
    assert OpOk(s, p) && OpOk(s, q);
    if PcOf(s, p).Returned? {
      assert InGroup(s, p, s.groupOf[p]);
    }
  }

  ghost predicate Progress(s: State, e: Step) {
    !e.Enter? && Enabled(s, e)
  }

  /** While any call is unfinished, some call other than a new one can move; sends never block. */
  lemma GroupCommitNeverStalls(es: seq<Step>, p: Op)
    requires Run(Initial(), es)
    requires var pc := PcOf(StateAfter(Initial(), es), p); pc != NotCalled && !pc.Returned?
    ensures exists e :: Progress(StateAfter(Initial(), es), e)
  {
    InitialInv();
    RunKeepsInv(Initial(), es);
    var s := StateAfter(Initial(), es);
    assert OpOk(s, p);
    if PcOf(s, p) == Waiting && ChanOf(s, p) != [] {
      assert Progress(s, Receive(p));
    } else {
      assert s.flushing;
      LeaderCanMove(s, s.token.value);
    }
  }

  lemma LeaderCanMove(s: State, p: Op)
    requires Inv(s) && s.token == Some(p)
    ensures exists e :: Progress(s, e)
  {
    assert OpOk(s, p);
    match PcOf(s, p) {
      case Waiting => assert Progress(s, Receive(p));
      case Leading => assert Progress(s, Take(p));
      case HasGroup(_) => assert Progress(s, Commit(p, true));
      case Notifying(g, k, _) =>
        if k < |g| {
          assert OpOk(s, g[k]);
          assert g[k] == Pending(s)[0];
        }
        assert Progress(s, Notify(p));
      case Handing(_) =>
        if s.queue != [] { assert OpOk(s, s.queue[0]); }
        assert Progress(s, Hand(p));
    }
  }

  // ---- Every call is answered ----

  /** Callers whose result is on its way. */
  function Answered(s: State): set<Op> {
    set p | p in s.pcs && s.pcs[p] == Waiting && |ChanOf(s, p)| == 1 && ChanOf(s, p)[0].Result?
  }

  function Stage(s: State): nat {
    match s.token
    case None => 0
    case Some(p) =>
      match PcOf(s, p)
      case Waiting => 8
      case Leading => 7
      case HasGroup(_) => 4
      case Notifying(_, _, _) => 3
      case _ => 2
  }

  /** Queued operations other than the one that leads or is about to. */
  function Behind(s: State): nat {
    if s.token.Some? && s.token.value in s.queue then |s.queue| - 1 else |s.queue|
  }

  function Rank(s: State): nat {
    7 * Behind(s) + 2 * |Pending(s)| + Stage(s) + |Answered(s)|
  }

  /** A result sits in p's channel. */
  predicate ResultWaits(s: State, p: Op) {
    PcOf(s, p) == Waiting && |ChanOf(s, p)| == 1 && ChanOf(s, p)[0].Result?
  }

  lemma AnsweredAre(s: State)
    ensures forall p :: p in Answered(s) <==> ResultWaits(s, p)
  {
  }

  lemma ReceiveRank(s: State, p: Op)
    requires Inv(s) && Enabled(s, Receive(p))
    ensures Rank(Do(s, Receive(p))) < Rank(s)
  {
    hide GroupsOk, Do;
    var t := Do(s, Receive(p));
    ReceiveEffect(s, p);
    assert OpOk(s, p);
    AnsweredAre(s);
    AnsweredAre(t);
    hide Answered, PcOf, ChanOf, SentTo;
    assert Answered(t) == Answered(s) - {p};
    assert p in Answered(s) <==> ChanOf(s, p)[0].Result?;
    assert Pending(t) == Pending(s);
  }

  lemma LeadRank(s: State, e: Step)
    requires Inv(s) && Enabled(s, e) && (e.Take? || e.Commit?)
    ensures Rank(Do(s, e)) < Rank(s)
  {
    hide GroupsOk;
    assert OpOk(s, e.p);
    assert Answered(Do(s, e)) == Answered(s);
  }

  lemma NotifyAnswered(s: State, p: Op)
    requires Enabled(s, Notify(p))
    requires var pc := PcOf(s, p); pc.k < |pc.group| && pc.group[pc.k] != p ==> PcOf(s, pc.group[pc.k]) == Waiting
    ensures var pc := PcOf(s, p); var t := Do(s, Notify(p));
            Answered(t) == if pc.k < |pc.group| && pc.group[pc.k] != p then Answered(s) + {pc.group[pc.k]} else Answered(s)
  {
    hide Do;
    var pc := PcOf(s, p);
    var t := Do(s, Notify(p));
    if pc.k < |pc.group| && pc.group[pc.k] != p { NotifyEffect(s, p); } else { NotifySelfEffect(s, p); SameChans(s, t); }
    AnsweredAre(s);
    AnsweredAre(t);
    hide Answered, PcOf, ChanOf, SentTo;
    assert Answered(t) == if pc.k < |pc.group| && pc.group[pc.k] != p then Answered(s) + {pc.group[pc.k]} else Answered(s);
  }

  /** What a notifying leader changes of what the rank looks at. */
  lemma NotifyKeeps(s: State, p: Op)
    requires Enabled(s, Notify(p))
    ensures var pc := PcOf(s, p); var t := Do(s, Notify(p));
            && t.token == s.token && t.queue == s.queue
            && PcOf(t, p) == if pc.k < |pc.group| then pc.(k := pc.k + 1) else Handing(pc.ok)
  {
    hide Do;
    if PcOf(s, p).k < |PcOf(s, p).group| && PcOf(s, p).group[PcOf(s, p).k] != p { NotifyEffect(s, p); }
    else { NotifySelfEffect(s, p); }
  }

  lemma NotifyNextRank(s: State, p: Op)
    requires Inv(s) && Enabled(s, Notify(p)) && s.token == Some(p) && PcOf(s, p).k < |PcOf(s, p).group|
    ensures Rank(Do(s, Notify(p))) < Rank(s)
  {
    hide GroupsOk, Do;
    var t := Do(s, Notify(p));
    var pc := PcOf(s, p);
    NotifyKeeps(s, p);
    assert OpOk(s, pc.group[pc.k]) by { assert pc.group[pc.k] == Pending(s)[0]; }
    PendingShrinks(s, t, p);
    NotifyAnswered(s, p);
    hide Pending, Answered, Enabled, OpOk, LeaderOk, Shape;
  }

  lemma NotifyRank(s: State, p: Op)
    requires Inv(s) && Enabled(s, Notify(p))
    ensures Rank(Do(s, Notify(p))) < Rank(s)
  {
    hide GroupsOk, Do;
    assert OpOk(s, p);
    NotifyKeeps(s, p);
    if PcOf(s, p).k < |PcOf(s, p).group| {
      NotifyNextRank(s, p);
    } else {
      NotifyAnswered(s, p);
      hide Answered, Enabled, OpOk, LeaderOk, Shape;
    }
  }

  lemma HandRank(s: State, p: Op)
    requires Inv(s) && Enabled(s, Hand(p))
    ensures Rank(Do(s, Hand(p))) < Rank(s)
  {
    hide GroupsOk, Do;
    var t := Do(s, Hand(p));
    assert OpOk(s, p);
    if s.queue == [] {
      HandBackEffect(s, p);
      SameChans(s, t);
    } else {
      assert OpOk(s, s.queue[0]);
      HandEffect(s, p);
    }
    AnsweredAre(s);
    AnsweredAre(t);
    hide Answered;
    assert Answered(t) == Answered(s);
  }

  lemma RankDecreases(s: State, e: Step)
    requires Inv(s) && Enabled(s, e) && !e.Enter?
    ensures Rank(Do(s, e)) < Rank(s)
  {
    hide Inv, Do, Rank, Enabled;
    match e {
      case Receive(p) => ReceiveRank(s, p);
      case Notify(p) => NotifyRank(s, p);
      case Hand(p) => HandRank(s, p);
      case _ => LeadRank(s, e);
    }
  }

  /**
   From any reachable state, a run without new calls is at most Rank steps
   long; since such a run can only stop when every call has returned, every
   caller is answered.
   */
  lemma {:induction false} EveryCallIsAnswered(s: State, es: seq<Step>)
    requires Inv(s) && Run(s, es) && forall k :: 0 <= k < |es| ==> !es[k].Enter?
    ensures |es| <= Rank(s)
    ensures (forall e :: !Progress(StateAfter(s, es), e)) ==>
              forall p: Op :: PcOf(StateAfter(s, es), p) == NotCalled || PcOf(StateAfter(s, es), p).Returned?
    decreases |es|
  {
    hide Inv, Do, Enabled, Rank;
    if es != [] {
      RankDecreases(s, es[0]);
      StepKeepsInv(s, es[0]);
      EveryCallIsAnswered(Do(s, es[0]), es[1..]);
    } else if forall e :: !Progress(s, e) {
      forall p: Op ensures PcOf(s, p) == NotCalled || PcOf(s, p).Returned? { StuckMeansDone(s, p); }
    }
  }

  lemma StuckMeansDone(s: State, p: Op)
    requires Inv(s) && forall e :: !Progress(s, e)
    ensures PcOf(s, p) == NotCalled || PcOf(s, p).Returned?
  {
    assert OpOk(s, p);
    if s.token.Some? {
      LeaderCanMove(s, s.token.value);
    } else if PcOf(s, p) == Waiting && ChanOf(s, p) != [] {
      assert Progress(s, Receive(p));
    }
  }
}
