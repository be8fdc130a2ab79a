/**
  One process and its archive slot: every restore, export and validation is
  admitted into the single slot before it starts and gives it back when it is
  over, so a wipe never meets a restore of the same process half way.
*/
module ArchiveSlot {
  import opened RestoreLedger

  /** Who holds the slot: a restore that keeps a ledger, a restore that wipes first, other work, or nobody. */
  datatype Slot = Free | Restoring(id: nat) | Wiping(user: nat) | Busy

  datatype Process = Process(s: State, slot: Slot)

  datatype Reply = Admitted | Refused

  datatype Event =
    | EAdmitRestore(id: nat, key: Key)
    | EAdmitWipe(user: nat)
    | EAdmitOther
    | EWork(work: RestoreLedger.Event)
    | ERelease
    | ECrash

  function Init(): (p: Process) {
    Process(RestoreLedger.Init(), Free)
  }

  predicate Finished(s: State, id: nat) {
    id in s.calls && (s.calls[id].phase.Returned? || s.calls[id].phase.Stopped?)
  }

  /** Only what holds the slot works on the tables. */
  predicate MayWork(slot: Slot, work: RestoreLedger.Event) {
    match work
    case EBegin(_, _) => false
    case ELookUp(id) => slot == Restoring(id)
    case EApply(id, _) => slot == Restoring(id)
    case EComplete(id) => slot == Restoring(id)
    case EStop(id) => slot == Restoring(id)
    case EWipe(user) => slot == Wiping(user)
  }

  /** The slot is taken or the request is refused; it never waits. */
  function Admit(p: Process, slot: Slot): (r: (Process, Reply)) {
    if p.slot.Free? then (p.(slot := slot), Admitted) else (p, Refused)
  }

  /** The handler gives the slot back once the restore has returned; a crash ends what was under way and frees it. */
  function Step(p: Process, e: Event): (q: Process) {
    match e
    case EAdmitRestore(id, key) =>
      if id in p.s.calls || Admit(p, Restoring(id)).1.Refused? then p
      else Process(RestoreLedger.Step(p.s, EBegin(id, key)), Restoring(id))
    case EAdmitWipe(user) => Admit(p, Wiping(user)).0
    case EAdmitOther => Admit(p, Busy).0
    case EWork(work) => if MayWork(p.slot, work) then p.(s := RestoreLedger.Step(p.s, work)) else p
    case ERelease => if p.slot.Restoring? && !Finished(p.s, p.slot.id) then p else p.(slot := Free)
    case ECrash => Process(if p.slot.Restoring? then RestoreLedger.Step(p.s, EStop(p.slot.id)) else p.s, Free)
  }

  function Run(es: seq<Event>): (p: Process) {
    if es == [] then Init() else Step(Run(es[..|es| - 1]), es[|es| - 1])
  }

  /** The slot changes hands by these rules: only a free slot is taken, and it is free again once its work is over. */
  lemma SlotAnswers(p: Process, e: Event)
    ensures var q := Step(p, e);
      match e
      case EAdmitRestore(id, key) =>
        if p.slot == Free && id !in p.s.calls
        then q.slot == Restoring(id) && q.s.calls == p.s.calls[id := Call(key, Epoch(p.s, key.user), Begun)]
        else q == p
      case EAdmitWipe(user) => q == if p.slot == Free then p.(slot := Wiping(user)) else p
      case EAdmitOther => q == if p.slot == Free then p.(slot := Busy) else p
      case EWork(work) =>
        if (work.EWipe? && p.slot == Wiping(work.user))
           || (!work.EWipe? && !work.EBegin? && p.slot == Restoring(work.id))
        then q == p.(s := RestoreLedger.Step(p.s, work)) else q == p
      case ERelease =>
        q == if p.slot.Restoring? && (p.slot.id in p.s.calls ==>
                  !p.s.calls[p.slot.id].phase.Returned? && !p.s.calls[p.slot.id].phase.Stopped?)
             then p else p.(slot := Free)
      case ECrash =>
        && q.slot == Free
        && forall id :: id in p.s.calls ==>
             id in q.s.calls
             && q.s.calls[id].phase == if p.slot == Restoring(id) && !p.s.calls[id].phase.Returned? then Stopped
                                       else p.s.calls[id].phase
  {
  }

  /** Every call but the one that holds the slot is over. */
  predicate OnlyHolderWorks(p: Process) {
    forall id :: id in p.s.calls && !Finished(p.s, id) ==> p.slot == Restoring(id)
  }

  predicate Inv(p: Process) {
    Sound(p.s) && OnlyHolderWorks(p) && (p.slot.Restoring? ==> p.slot.id in p.s.calls)
  }

  /** The holder's work changes no other call, and a wipe none at all. */
  lemma WorkIsTheHolders(s: State, slot: Slot, work: RestoreLedger.Event)
    requires MayWork(slot, work)
    ensures RestoreLedger.Step(s, work).calls.Keys == s.calls.Keys
    ensures forall i :: i in s.calls && slot != Restoring(i) ==> RestoreLedger.Step(s, work).calls[i] == s.calls[i]
  {
  }

  lemma WorkKeepsInv(p: Process, work: RestoreLedger.Event)
    requires Inv(p) && MayWork(p.slot, work)
    ensures Inv(Step(p, EWork(work)))
  {
    assert work.EWipe? ==> WipeIsSafe(p.s, work.user);
    SafeStepKeepsSound(p.s, work);
    WorkIsTheHolders(p.s, p.slot, work);
    HolderKeepsInv(p, RestoreLedger.Step(p.s, work));
  }

  lemma HolderKeepsInv(p: Process, t: State)
    requires Inv(p) && Sound(t) && t.calls.Keys == p.s.calls.Keys
    requires forall i :: i in p.s.calls && p.slot != Restoring(i) ==> t.calls[i] == p.s.calls[i]
    ensures Inv(p.(s := t))
  {
  }

  lemma BeginKeepsInv(p: Process, id: nat, key: Key)
    requires Inv(p) && p.slot.Free?
    ensures Inv(Step(p, EAdmitRestore(id, key)))
  {
    SafeStepKeepsSound(p.s, EBegin(id, key));
  }

  lemma CrashKeepsInv(p: Process)
    requires Inv(p)
    ensures Inv(Step(p, ECrash))
  {
    if p.slot.Restoring? {
      SafeStepKeepsSound(p.s, EStop(p.slot.id));
    }
  }

  lemma StepKeepsInv(p: Process, e: Event)
    requires Inv(p)
    ensures Inv(Step(p, e))
  {
    match e
    case EAdmitRestore(id, key) => if p.slot.Free? { BeginKeepsInv(p, id, key); }
    case EAdmitWipe(_) =>
    case EAdmitOther =>
    case EWork(work) => if MayWork(p.slot, work) { WorkKeepsInv(p, work); }
    case ERelease =>
    case ECrash => CrashKeepsInv(p);
  }

  lemma {:induction false} RunKeepsInv(es: seq<Event>)
    ensures Inv(Run(es))
  {
    if es != [] {
      RunKeepsInv(es[..|es| - 1]);
      StepKeepsInv(Run(es[..|es| - 1]), es[|es| - 1]);
    }
  }

  /**
    In every run of one process, wherever it crashes, at most one call is under
    way, no wipe is made while a call of its owner is, and every completed ledger
    speaks of its own files.
  */
  lemma SlotKeepsFilesMatch(es: seq<Event>, user: nat)
    ensures var p := Run(es);
            && FilesMatch(p.s) && OnlyHolderWorks(p)
            && (MayWork(p.slot, EWipe(user)) ==> WipeIsSafe(p.s, user))
  {
    RunKeepsInv(es);
  }

  /** What the process does is a run of the protocol. */
  lemma {:induction false} SlotRunsProtocol(es: seq<Event>)
    ensures Reachable(Run(es).s)
  {
    if es == [] {
      assert RestoreLedger.Run([]) == Run(es).s;
    } else {
      var p, e := Run(es[..|es| - 1]), es[|es| - 1];
      SlotRunsProtocol(es[..|es| - 1]);
      match e
      case EAdmitRestore(id, key) => StepIsReachable(p.s, EBegin(id, key));
      case EWork(work) => StepIsReachable(p.s, work);
      case ECrash => if p.slot.Restoring? { StepIsReachable(p.s, EStop(p.slot.id)); }
      case EAdmitWipe(_) =>
      case EAdmitOther =>
      case ERelease =>
    }
  }
}
