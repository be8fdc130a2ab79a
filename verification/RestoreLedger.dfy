/**
  Restoring an archive without duplicating what is there: a durable ledger per
  owner and archive, read before the rows are written, saved with them, and
  completed after the files. Calls run side by side and may stop anywhere.
*/
module RestoreLedger {
  import opened Wrappers

  const MAX_SLUG_ATTEMPTS := 3

  datatype Key = Key(user: nat, digest: nat)

  datatype Counts = Counts(inserted: nat, skipped: nat)

  /**
    A ledger row. `epoch` says how often the owner had been wiped when the rows
    were written, `files` the same of the call whose file phase completed the
    row; the code stores neither, only that the files are done.
  */
  datatype Ledger = Ledger(counts: Counts, epoch: nat, files: Option<nat>)

  datatype Phase =
    | Begun
    | Prepared(tries: nat)
    | Writing(counts: Counts, epoch: nat)
    | Returned(counts: Counts, epoch: nat)
    | Stopped

  /** One restore call; `began` is the owner's epoch when it began. */
  datatype Call = Call(key: Key, began: nat, phase: Phase)

  /** One committed insertion of an archive's rows. */
  datatype Insertion = Insertion(key: Key, epoch: nat, counts: Counts)

  datatype State = State(ledgers: map<Key, Ledger>, epochs: map<nat, nat>, calls: map<nat, Call>, log: seq<Insertion>)

  function Init(): (s: State) {
    State(map[], map[], map[], [])
  }

  function Epoch(s: State, user: nat): (e: nat) {
    if user in s.epochs then s.epochs[user] else 0
  }

  /** How one attempt at the transaction ends. */
  datatype Attempt = Commits(counts: Counts) | Races | Breaks

  datatype Event =
    | EBegin(id: nat, key: Key)
    | ELookUp(id: nat)
    | EApply(id: nat, attempt: Attempt)
    | EComplete(id: nat)
    | EStop(id: nat)
    | EWipe(user: nat)

  predicate At(s: State, id: nat, phase: Phase) {
    id in s.calls && s.calls[id].phase == phase
  }

  function Move(s: State, id: nat, phase: Phase): (t: State)
    requires id in s.calls
  {
    s.(calls := s.calls[id := s.calls[id].(phase := phase)])
  }

  /** What a ledger row tells the call that finds it. */
  function Resume(ledger: Ledger): (p: Phase) {
    if ledger.files.Some? then Returned(ledger.counts, ledger.epoch) else Writing(ledger.counts, ledger.epoch)
  }

  function LookUp(s: State, id: nat): (t: State) {
    if !At(s, id, Begun) then s
    else
      var key := s.calls[id].key;
      if key in s.ledgers then Move(s, id, Resume(s.ledgers[key])) else Move(s, id, Prepared(0))
  }

  /** The rows and their ledger, in one transaction. */
  function InsertRows(s: State, id: nat, counts: Counts): (t: State)
    requires id in s.calls
  {
    var key := s.calls[id].key;
    var epoch := Epoch(s, key.user);
    Move(s.(ledgers := s.ledgers[key := Ledger(counts, epoch, None)], log := s.log + [Insertion(key, epoch, counts)]),
         id, Writing(counts, epoch))
  }

  /** One attempt: it looks for the ledger again, under the restore lock, before it writes. */
  function Apply(s: State, id: nat, attempt: Attempt): (t: State) {
    if id !in s.calls || !s.calls[id].phase.Prepared? then s
    else
      var tries := s.calls[id].phase.tries + 1;
      match attempt
      case Breaks => Move(s, id, Stopped)
      case Races => Move(s, id, if tries < MAX_SLUG_ATTEMPTS then Prepared(tries) else Stopped)
      case Commits(counts) =>
        if s.calls[id].key in s.ledgers then Move(s, id, Resume(s.ledgers[s.calls[id].key]))
        else InsertRows(s, id, counts)
  }

  /** The files are written; the row found under the key is marked, and a missing row is an error. */
  function Complete(s: State, id: nat): (t: State) {
    if id !in s.calls || !s.calls[id].phase.Writing? then s
    else
      var call := s.calls[id];
      if call.key !in s.ledgers then Move(s, id, Stopped)
      else
        Move(s.(ledgers := s.ledgers[call.key := s.ledgers[call.key].(files := Some(call.phase.epoch))]), id,
             Returned(call.phase.counts, call.phase.epoch))
  }

  /** A restore that wipes first: the owner's rows and ledgers go together. */
  function Wipe(s: State, user: nat): (t: State) {
    s.(ledgers := map k | k in s.ledgers && k.user != user :: s.ledgers[k],
       epochs := s.epochs[user := Epoch(s, user) + 1])
  }

  function Step(s: State, e: Event): (t: State) {
    match e
    case EBegin(id, key) =>
      if id in s.calls then s else s.(calls := s.calls[id := Call(key, Epoch(s, key.user), Begun)])
    case ELookUp(id) => LookUp(s, id)
    case EApply(id, attempt) => Apply(s, id, attempt)
    case EComplete(id) => Complete(s, id)
    case EStop(id) => if id in s.calls && !s.calls[id].phase.Returned? then Move(s, id, Stopped) else s
    case EWipe(user) => Wipe(s, user)
  }

  /** The state after the events of `es`, starting from `s`. */
  function Play(s: State, es: seq<Event>): (t: State) {
    if es == [] then s else Step(Play(s, es[..|es| - 1]), es[|es| - 1])
  }

  function Run(es: seq<Event>): (s: State) {
    Play(Init(), es)
  }

  ghost predicate Reachable(s: State) {
    exists es :: Run(es) == s
  }

  lemma StepIsReachable(s: State, e: Event)
    requires Reachable(s)
    ensures Reachable(Step(s, e))
  {
    var es :| Run(es) == s;
    assert (es + [e])[..|es + [e]| - 1] == es;
    assert Run(es + [e]) == Step(s, e);
  }

  // ---- What every state keeps ----

  /** The counts were those of the one insertion of that epoch. */
  predicate Logged(s: State, key: Key, epoch: nat, counts: Counts) {
    Insertion(key, epoch, counts) in s.log
  }

  predicate LedgerInv(s: State, key: Key)
    requires key in s.ledgers
  {
    s.ledgers[key].epoch == Epoch(s, key.user) && Logged(s, key, s.ledgers[key].epoch, s.ledgers[key].counts)
  }

  predicate CallInv(s: State, c: Call) {
    && c.began <= Epoch(s, c.key.user)
    && (c.phase.Writing? || c.phase.Returned? ==>
          c.began <= c.phase.epoch <= Epoch(s, c.key.user) && Logged(s, c.key, c.phase.epoch, c.phase.counts))
  }

  /** One insertion per key and epoch, and the current one still has its ledger. */
  predicate LogInv(s: State) {
    && (forall i, j :: 0 <= i < j < |s.log| && s.log[i].key == s.log[j].key ==> s.log[i].epoch < s.log[j].epoch)
    && (forall i :: 0 <= i < |s.log| ==> s.log[i].epoch <= Epoch(s, s.log[i].key.user))
    && (forall i :: 0 <= i < |s.log| && s.log[i].epoch == Epoch(s, s.log[i].key.user) ==> s.log[i].key in s.ledgers)
  }

  predicate Inv(s: State) {
    && (forall k :: k in s.ledgers ==> LedgerInv(s, k))
    && (forall id :: id in s.calls ==> CallInv(s, s.calls[id]))
    && LogInv(s)
  }

  lemma MoveKeepsInv(s: State, id: nat, phase: Phase)
    requires Inv(s) && id in s.calls && CallInv(s, s.calls[id].(phase := phase))
    ensures Inv(Move(s, id, phase))
  {
    var t := Move(s, id, phase);
    forall k | k in t.ledgers ensures LedgerInv(t, k) {
      assert LedgerInv(s, k);
    }
    forall i | i in t.calls ensures CallInv(t, t.calls[i]) {
      assert CallInv(s, s.calls[i]);
    }
  }

  lemma ResumeKeepsInv(s: State, id: nat)
    requires Inv(s) && id in s.calls && s.calls[id].key in s.ledgers
    ensures Inv(Move(s, id, Resume(s.ledgers[s.calls[id].key])))
  {
    assert LedgerInv(s, s.calls[id].key) && CallInv(s, s.calls[id]);
    MoveKeepsInv(s, id, Resume(s.ledgers[s.calls[id].key]));
  }

  lemma SavingKeepsLog(s: State, t: State, x: Insertion)
    requires LogInv(s) && x.key !in s.ledgers && x.epoch == Epoch(s, x.key.user)
    requires t.log == s.log + [x] && t.epochs == s.epochs && t.ledgers.Keys == s.ledgers.Keys + {x.key}
    ensures LogInv(t) && x in t.log && forall y :: y in s.log ==> y in t.log
  {
    assert t.log[|s.log|] == x;
  }

  lemma SavingKeepsInv(s: State, key: Key, counts: Counts)
    requires Inv(s) && key !in s.ledgers
    ensures var e := Epoch(s, key.user);
            Inv(s.(ledgers := s.ledgers[key := Ledger(counts, e, None)], log := s.log + [Insertion(key, e, counts)]))
  {
    var e := Epoch(s, key.user);
    var t := s.(ledgers := s.ledgers[key := Ledger(counts, e, None)], log := s.log + [Insertion(key, e, counts)]);
    SavingKeepsLog(s, t, Insertion(key, e, counts));
    forall k | k in t.ledgers ensures LedgerInv(t, k) {
      assert k != key ==> LedgerInv(s, k);
    }
    forall i | i in t.calls ensures CallInv(t, t.calls[i]) {
      assert CallInv(s, s.calls[i]);
    }
  }

  lemma InsertKeepsInv(s: State, id: nat, counts: Counts)
    requires Inv(s) && id in s.calls && s.calls[id].key !in s.ledgers
    ensures Inv(InsertRows(s, id, counts))
  {
    var key := s.calls[id].key;
    var e := Epoch(s, key.user);
    var t := s.(ledgers := s.ledgers[key := Ledger(counts, e, None)], log := s.log + [Insertion(key, e, counts)]);
    SavingKeepsInv(s, key, counts);
    assert CallInv(s, s.calls[id]);
    assert t.log[|s.log|] == Insertion(key, e, counts);
    MoveKeepsInv(t, id, Writing(counts, e));
  }

  lemma CompleteKeepsInv(s: State, id: nat)
    requires Inv(s)
    ensures Inv(Complete(s, id))
  {
    if id in s.calls && s.calls[id].phase.Writing? {
      var call := s.calls[id];
      assert CallInv(s, call);
      if call.key in s.ledgers {
        var t := s.(ledgers := s.ledgers[call.key := s.ledgers[call.key].(files := Some(call.phase.epoch))]);
        forall k | k in t.ledgers ensures LedgerInv(t, k) {
          assert LedgerInv(s, k);
        }
        forall i | i in t.calls ensures CallInv(t, t.calls[i]) {
          assert CallInv(s, s.calls[i]);
        }
        MoveKeepsInv(t, id, Returned(call.phase.counts, call.phase.epoch));
      } else {
        MoveKeepsInv(s, id, Stopped);
      }
    }
  }

  lemma WipeKeepsInv(s: State, user: nat)
    requires Inv(s)
    ensures Inv(Wipe(s, user))
  {
    var t := Wipe(s, user);
    forall k | k in t.ledgers ensures LedgerInv(t, k) {
      assert LedgerInv(s, k);
    }
    forall i | i in t.calls ensures CallInv(t, t.calls[i]) {
      assert CallInv(s, s.calls[i]);
    }
  }

  lemma ApplyKeepsInv(s: State, id: nat, attempt: Attempt)
    requires Inv(s)
    ensures Inv(Apply(s, id, attempt))
  {
    if id in s.calls && s.calls[id].phase.Prepared? {
      assert CallInv(s, s.calls[id]);
      var tries := s.calls[id].phase.tries + 1;
      match attempt
      case Breaks => MoveKeepsInv(s, id, Stopped);
      case Races => MoveKeepsInv(s, id, if tries < MAX_SLUG_ATTEMPTS then Prepared(tries) else Stopped);
      case Commits(counts) =>
        if s.calls[id].key in s.ledgers {
          ResumeKeepsInv(s, id);
        } else {
          InsertKeepsInv(s, id, counts);
        }
    }
  }

  lemma BeginKeepsInv(s: State, id: nat, key: Key)
    requires Inv(s)
    ensures Inv(Step(s, EBegin(id, key)))
  {
    var t := Step(s, EBegin(id, key));
    forall k | k in t.ledgers ensures LedgerInv(t, k) {
      assert LedgerInv(s, k);
    }
    forall i | i in t.calls ensures CallInv(t, t.calls[i]) {
      assert i in s.calls ==> CallInv(s, s.calls[i]);
    }
  }

  lemma StepKeepsInv(s: State, e: Event)
    requires Inv(s)
    ensures Inv(Step(s, e))
  {
    match e
    case EBegin(id, key) => BeginKeepsInv(s, id, key);
    case ELookUp(id) =>
      if At(s, id, Begun) {
        assert CallInv(s, s.calls[id]);
        if s.calls[id].key in s.ledgers {
          ResumeKeepsInv(s, id);
        } else {
          MoveKeepsInv(s, id, Prepared(0));
        }
      }
    case EApply(id, attempt) => ApplyKeepsInv(s, id, attempt);
    case EComplete(id) => CompleteKeepsInv(s, id);
    case EStop(id) =>
      if id in s.calls && !s.calls[id].phase.Returned? {
        assert CallInv(s, s.calls[id]);
        MoveKeepsInv(s, id, Stopped);
      }
    case EWipe(user) => WipeKeepsInv(s, user);
  }

  lemma {:induction false} PlayKeepsInv(s: State, es: seq<Event>)
    requires Inv(s)
    ensures Inv(Play(s, es))
  {
    if es != [] {
      PlayKeepsInv(s, es[..|es| - 1]);
      StepKeepsInv(Play(s, es[..|es| - 1]), es[|es| - 1]);
    }
  }

  lemma RunKeepsInv(es: seq<Event>)
    ensures Inv(Run(es))
  {
    PlayKeepsInv(Init(), es);
  }

  // ---- What callers rely on ----

  /**
    Between two wipes of an owner an archive's rows go in at most once, wherever
    calls stop and however they overlap: a later insertion is of a later epoch.
  */
  lemma RowsGoInOnce(es: seq<Event>, i: nat, j: nat)
    requires i < j < |Run(es).log| && Run(es).log[i].key == Run(es).log[j].key
    ensures Run(es).log[i].epoch < Run(es).log[j].epoch
  {
    RunKeepsInv(es);
  }

  lemma LoggedOnce(s: State, key: Key, epoch: nat, a: Counts, b: Counts)
    requires LogInv(s) && Logged(s, key, epoch, a) && Logged(s, key, epoch, b)
    ensures a == b
  {
    var i :| 0 <= i < |s.log| && s.log[i] == Insertion(key, epoch, a);
    var j :| 0 <= j < |s.log| && s.log[j] == Insertion(key, epoch, b);
    assert i == j;
  }

  /** Calls for one archive that began since the owner's last wipe all report what its one insertion reported. */
  lemma ReportsAgree(es: seq<Event>, a: nat, b: nat)
    requires var s := Run(es);
      && a in s.calls && b in s.calls && s.calls[a].key == s.calls[b].key
      && s.calls[a].phase.Returned? && s.calls[b].phase.Returned?
      && s.calls[a].began == Epoch(s, s.calls[a].key.user) == s.calls[b].began
    ensures var s := Run(es);
      && s.calls[a].phase.counts == s.calls[b].phase.counts
      && s.calls[a].key in s.ledgers && s.ledgers[s.calls[a].key].counts == s.calls[a].phase.counts
  {
    var s := Run(es);
    RunKeepsInv(es);
    var key, epoch := s.calls[a].key, s.calls[a].began;
    assert CallInv(s, s.calls[a]) && CallInv(s, s.calls[b]);
    LoggedOnce(s, key, epoch, s.calls[a].phase.counts, s.calls[b].phase.counts);
    assert key in s.ledgers && LedgerInv(s, key);
    LoggedOnce(s, key, epoch, s.calls[a].phase.counts, s.ledgers[key].counts);
  }

  // ---- What each transaction of a call does ----

  /** Nothing but this call's own phase. */
  predicate OnlyMoves(s: State, t: State, id: nat) {
    && id in s.calls && id in t.calls && t.calls == s.calls[id := s.calls[id].(phase := t.calls[id].phase)]
    && t.epochs == s.epochs
  }

  /** What a row tells whoever finds it: that all is done, or that the files are still to be written. */
  predicate Tells(row: Ledger, phase: Phase) {
    if row.files.Some? then phase == Returned(row.counts, row.epoch) else phase == Writing(row.counts, row.epoch)
  }

  /** The first look either finds the row or sends the call to write it; it changes no table. */
  lemma LookAnswers(s: State, id: nat)
    requires id in s.calls && s.calls[id].phase == Begun
    ensures var t, key := LookUp(s, id), s.calls[id].key;
      && OnlyMoves(s, t, id) && t.ledgers == s.ledgers && t.log == s.log
      && if key in s.ledgers then Tells(s.ledgers[key], t.calls[id].phase) else t.calls[id].phase == Prepared(0)
  {
  }

  /**
    An attempt writes rows only where it finds no ledger, and then with one; a lost
    race may be tried again twice, and any other failure ends the call.
  */
  lemma AttemptAnswers(s: State, id: nat, attempt: Attempt)
    requires id in s.calls && s.calls[id].phase.Prepared?
    ensures var t, key, tries := Apply(s, id, attempt), s.calls[id].key, s.calls[id].phase.tries + 1;
      && OnlyMoves(s, t, id)
      && if attempt.Commits? && key !in s.ledgers then
           var epoch := if key.user in s.epochs then s.epochs[key.user] else 0;
           && t.ledgers == s.ledgers[key := Ledger(attempt.counts, epoch, None)]
           && t.log == s.log + [Insertion(key, epoch, attempt.counts)]
           && t.calls[id].phase == Writing(attempt.counts, epoch)
         else
           && t.ledgers == s.ledgers && t.log == s.log
           && match attempt
              case Commits(_) => Tells(s.ledgers[key], t.calls[id].phase)
              case Races => t.calls[id].phase == if tries < 3 then Prepared(tries) else Stopped
              case Breaks => t.calls[id].phase == Stopped
  {
  }

  /** A call that has written its files marks the row, and reports a success only if the row is still there. */
  lemma CompletionAnswers(s: State, id: nat)
    requires id in s.calls && s.calls[id].phase.Writing?
    ensures var t, call := Complete(s, id), s.calls[id];
      && OnlyMoves(s, t, id) && t.log == s.log
      && if call.key in s.ledgers then
           && t.ledgers == s.ledgers[call.key := s.ledgers[call.key].(files := Some(call.phase.epoch))]
           && t.calls[id].phase == Returned(call.phase.counts, call.phase.epoch)
         else t.ledgers == s.ledgers && t.calls[id].phase == Stopped
  {
  }

  /** A wipe takes its owner's ledgers and no one else's, and no call's phase. */
  lemma WipeAnswers(s: State, user: nat)
    ensures var t := Wipe(s, user);
      && (forall k :: k in t.ledgers <==> k in s.ledgers && k.user != user)
      && (forall k :: k in t.ledgers ==> t.ledgers[k] == s.ledgers[k])
      && t.calls == s.calls && t.log == s.log
      && forall u: nat :: Epoch(t, u) == Epoch(s, u) + if u == user then 1 else 0
  {
  }

  // ---- When a completed ledger speaks of its own files ----

  /** The row is marked by a call that wrote the files under the row's own mapping. */
  predicate FilesMatch(s: State) {
    forall k :: k in s.ledgers && s.ledgers[k].files.Some? ==> s.ledgers[k].files.value == s.ledgers[k].epoch
  }

  /** The call, if it is writing files, learned its mapping since the owner's last wipe. */
  predicate IsCurrent(s: State, id: nat) {
    id in s.calls && s.calls[id].phase.Writing? ==> s.calls[id].phase.epoch == Epoch(s, s.calls[id].key.user)
  }

  lemma CompletionMatches(s: State, id: nat)
    requires Inv(s) && FilesMatch(s)
    ensures FilesMatch(Complete(s, id)) <==> IsCurrent(s, id) || s.calls[id].key !in s.ledgers
  {
    if id in s.calls && s.calls[id].phase.Writing? && s.calls[id].key in s.ledgers {
      var key := s.calls[id].key;
      assert LedgerInv(s, key);
      assert Complete(s, id).ledgers[key].files == Some(s.calls[id].phase.epoch);
    }
  }

  lemma OtherStepsMatch(s: State, e: Event)
    requires Inv(s) && FilesMatch(s) && !e.EComplete?
    ensures FilesMatch(Step(s, e))
  {
    forall k | k in Step(s, e).ledgers && Step(s, e).ledgers[k].files.Some?
      ensures Step(s, e).ledgers[k].files.value == Step(s, e).ledgers[k].epoch
    {
      assert k in s.ledgers;
    }
  }

  lemma StepMatches(s: State, e: Event)
    requires Inv(s) && FilesMatch(s) && (e.EComplete? ==> IsCurrent(s, e.id))
    ensures FilesMatch(Step(s, e))
  {
    if e.EComplete? {
      CompletionMatches(s, e.id);
    } else {
      OtherStepsMatch(s, e);
    }
  }

  // ---- Runs in which no call spans a wipe ----

  /** `es[b]` begins the call `id`. */
  predicate Begins(es: seq<Event>, id: nat, b: nat) {
    && b < |es| && es[b].EBegin? && es[b].id == id
    && forall i :: 0 <= i < b ==> !(es[i].EBegin? && es[i].id == id)
  }

  /** Between the beginning of the call and its marking of the ledger its owner is wiped. */
  predicate Spans(es: seq<Event>, id: nat, b: nat, w: nat, c: nat) {
    Begins(es, id, b) && b < w < c < |es| && es[w] == EWipe(es[b].key.user) && es[c] == EComplete(id)
  }

  ghost predicate NoCallSpansWipe(es: seq<Event>) {
    forall id: nat, b: nat, w: nat, c: nat :: !Spans(es, id, b, w, c)
  }

  ghost predicate SpansNothingYet(es: seq<Event>, id: nat, b: nat)
    requires b < |es| && es[b].EBegin?
  {
    forall w :: b < w < |es| ==> es[w] != EWipe(es[b].key.user)
  }

  /** A call begins where its first `EBegin` is, and its owner's epoch moves only with a wipe. */
  lemma {:induction false} CallBegan(es: seq<Event>, id: nat) returns (b: nat)
    requires id in Run(es).calls
    ensures Begins(es, id, b) && es[b].key == Run(es).calls[id].key
    ensures SpansNothingYet(es, id, b) ==> Run(es).calls[id].began == Epoch(Run(es), es[b].key.user)
  {
    var init, e := es[..|es| - 1], es[|es| - 1];
    var s := Run(init);
    if id in s.calls {
      b := CallBegan(init, id);
      CallsStay(s, e, id);
      assert Begins(es, id, b);
      if SpansNothingYet(es, id, b) {
        assert forall w :: b < w < |init| ==> init[w] == es[w];
        assert e != EWipe(es[b].key.user);
      }
    } else {
      b := |es| - 1;
      assert e.EBegin? && e.id == id;
      NothingBegan(init, id);
    }
  }

  lemma CallsStay(s: State, e: Event, id: nat)
    requires id in s.calls
    ensures id in Step(s, e).calls
    ensures var c, d := s.calls[id], Step(s, e).calls[id]; d.key == c.key && d.began == c.began
    ensures e != EWipe(s.calls[id].key.user) ==>
              Epoch(Step(s, e), s.calls[id].key.user) == Epoch(s, s.calls[id].key.user)
  {
  }

  lemma {:induction false} NothingBegan(es: seq<Event>, id: nat)
    requires id !in Run(es).calls
    ensures forall i :: 0 <= i < |es| ==> !(es[i].EBegin? && es[i].id == id)
  {
    if es != [] {
      var init, e := es[..|es| - 1], es[|es| - 1];
      if id in Run(init).calls {
        CallsStay(Run(init), e, id);
      }
      NothingBegan(init, id);
    }
  }

  lemma CompletionIsCurrent(es: seq<Event>, id: nat)
    requires NoCallSpansWipe(es + [EComplete(id)])
    ensures IsCurrent(Run(es), id)
  {
    var s, all := Run(es), es + [EComplete(id)];
    RunKeepsInv(es);
    if id in s.calls && s.calls[id].phase.Writing? {
      var b := CallBegan(es, id);
      assert Begins(all, id, b);
      forall w | b < w < |es| ensures es[w] != EWipe(es[b].key.user) {
        assert !Spans(all, id, b, w, |es|);
      }
      assert CallInv(s, s.calls[id]);
    }
  }

  lemma PrefixSpansNothing(es: seq<Event>)
    requires NoCallSpansWipe(es) && es != []
    ensures NoCallSpansWipe(es[..|es| - 1])
  {
    var init := es[..|es| - 1];
    forall id: nat, b: nat, w: nat, c: nat ensures !Spans(init, id, b, w, c) {
      assert !Spans(es, id, b, w, c);
      if Begins(init, id, b) {
        assert Begins(es, id, b);
      }
    }
  }

  /**
    As long as no call begins before a wipe of its owner and marks its ledger after
    it, a completed ledger has its files.
  */
  lemma {:induction false} FilesMatchWithoutSpans(es: seq<Event>)
    requires NoCallSpansWipe(es)
    ensures FilesMatch(Run(es))
  {
    if es != [] {
      var init, e := es[..|es| - 1], es[|es| - 1];
      PrefixSpansNothing(es);
      FilesMatchWithoutSpans(init);
      RunKeepsInv(init);
      if e.EComplete? {
        assert es == init + [EComplete(e.id)];
        CompletionIsCurrent(init, e.id);
      }
      StepMatches(Run(init), e);
    }
  }

  // ---- Which wipes are safe ----

  /**
    No call of the owner is between writing its rows and marking their ledger: what
    a wipe could look up before it starts.
  */
  predicate WipeIsSafe(s: State, user: nat) {
    forall id :: id in s.calls && s.calls[id].key.user == user ==> !s.calls[id].phase.Writing?
  }

  predicate AllCurrent(s: State) {
    forall id :: id in s.calls ==> IsCurrent(s, id)
  }

  /** Every ledger marked so far, and every ledger the calls under way will mark, speaks of its own files. */
  predicate Sound(s: State) {
    Inv(s) && FilesMatch(s) && AllCurrent(s)
  }

  predicate SafeWipes(s: State, es: seq<Event>) {
    es == [] || (SafeWipes(s, es[..|es| - 1])
                 && (es[|es| - 1].EWipe? ==> WipeIsSafe(Play(s, es[..|es| - 1]), es[|es| - 1].user)))
  }

  lemma SafeStepKeepsSound(s: State, e: Event)
    requires Sound(s) && (e.EWipe? ==> WipeIsSafe(s, e.user))
    ensures Sound(Step(s, e))
  {
    StepKeepsInv(s, e);
    StepMatches(s, e);
    forall id | id in Step(s, e).calls ensures IsCurrent(Step(s, e), id) {
      SafeStepKeepsCurrent(s, e, id);
    }
  }

  lemma SafeStepKeepsCurrent(s: State, e: Event, id: nat)
    requires Inv(s) && IsCurrent(s, id) && (e.EWipe? ==> WipeIsSafe(s, e.user))
    ensures IsCurrent(Step(s, e), id)
  {
    match e
    case ELookUp(i) => LookUpKeepsCurrent(s, i, id);
    case EApply(i, attempt) => ApplyKeepsCurrent(s, i, attempt, id);
    case EWipe(user) =>
    case EBegin(_, _) =>
    case EComplete(_) =>
    case EStop(_) =>
  }

  lemma LookUpKeepsCurrent(s: State, i: nat, id: nat)
    requires Inv(s) && IsCurrent(s, id)
    ensures IsCurrent(LookUp(s, i), id)
  {
    if At(s, i, Begun) && s.calls[i].key in s.ledgers {
      assert LedgerInv(s, s.calls[i].key);
    }
  }

  lemma ApplyKeepsCurrent(s: State, i: nat, attempt: Attempt, id: nat)
    requires Inv(s) && IsCurrent(s, id)
    ensures IsCurrent(Apply(s, i, attempt), id)
  {
    if i in s.calls && s.calls[i].key in s.ledgers {
      assert LedgerInv(s, s.calls[i].key);
    }
  }

  lemma {:induction false} SafeWipesKeepSound(s: State, es: seq<Event>)
    requires Sound(s) && SafeWipes(s, es)
    ensures Sound(Play(s, es))
  {
    if es != [] {
      SafeWipesKeepSound(s, es[..|es| - 1]);
      SafeStepKeepsSound(Play(s, es[..|es| - 1]), es[|es| - 1]);
    }
  }

  /** After an unsafe wipe a call begins anew, writes its rows and stops, as the state `t` shows. */
  ghost predicate Newcomer(s: State, t: State, id: nat, key: Key, phase: Phase) {
    && t.calls == s.calls[id := Call(key, Epoch(s, key.user), phase)] && t.epochs == s.epochs
    && if phase.Begun? || phase.Prepared? then t.ledgers == s.ledgers
       else exists counts :: t.ledgers == s.ledgers[key := Ledger(counts, Epoch(s, key.user), None)]
  }

  lemma NewcomerPrepares(s: State, t: State, id: nat, key: Key)
    requires key !in s.ledgers && Newcomer(s, t, id, key, Begun)
    ensures Newcomer(s, Step(t, ELookUp(id)), id, key, Prepared(0))
  {
  }

  lemma NewcomerInserts(s: State, t: State, id: nat, key: Key, counts: Counts)
    requires key !in s.ledgers && Newcomer(s, t, id, key, Prepared(0))
    ensures Newcomer(s, Step(t, EApply(id, Commits(counts))), id, key, Writing(counts, Epoch(s, key.user)))
  {
    assert Step(t, EApply(id, Commits(counts))).ledgers == s.ledgers[key := Ledger(counts, Epoch(s, key.user), None)];
  }

  lemma NewcomerStops(s: State, t: State, id: nat, key: Key, counts: Counts, epoch: nat)
    requires Newcomer(s, t, id, key, Writing(counts, epoch))
    ensures Newcomer(s, Step(t, EStop(id)), id, key, Stopped)
  {
    var c :| t.ledgers == s.ledgers[key := Ledger(c, Epoch(s, key.user), None)];
    assert Step(t, EStop(id)).ledgers == s.ledgers[key := Ledger(c, Epoch(s, key.user), None)];
  }

  function Newcoming(id: nat, key: Key, counts: Counts): (es: seq<Event>) {
    [EBegin(id, key), ELookUp(id), EApply(id, Commits(counts)), EStop(id)]
  }

  lemma NewcomerLeavesLedger(s: State, id: nat, key: Key, counts: Counts)
    requires key !in s.ledgers && id !in s.calls
    ensures Newcomer(s, Play(s, Newcoming(id, key, counts)), id, key, Stopped)
  {
    var es := Newcoming(id, key, counts);
    assert es[..1] == [EBegin(id, key)] && es[..2][..1] == es[..1] && es[..3][..2] == es[..2] && es[..4] == es;
    assert Newcomer(s, Play(s, es[..1]), id, key, Begun);
    NewcomerPrepares(s, Play(s, es[..1]), id, key);
    NewcomerInserts(s, Play(s, es[..2]), id, key, counts);
    NewcomerStops(s, Play(s, es[..3]), id, key, counts, Epoch(s, key.user));
  }

  /** A call left behind by a wipe marks the ledger of the newcomer, who wrote no file. */
  lemma StaleCallMarks(s: State, stale: nat, id: nat)
    requires stale in s.calls && s.calls[stale].phase.Writing? && s.calls[stale].key !in s.ledgers && id !in s.calls
    requires s.calls[stale].phase.epoch != Epoch(s, s.calls[stale].key.user)
    ensures var c := s.calls[stale];
            !FilesMatch(Play(s, Newcoming(id, c.key, c.phase.counts) + [EComplete(stale)]))
  {
    var c := s.calls[stale];
    var es := Newcoming(id, c.key, c.phase.counts);
    NewcomerLeavesLedger(s, id, c.key, c.phase.counts);
    assert (es + [EComplete(stale)])[..|es|] == es;
    var t := Play(s, es);
    assert t.calls[stale] == c && c.key in t.ledgers;
    assert Complete(t, stale).ledgers[c.key].files == Some(c.phase.epoch);
  }

  lemma {:induction false} UnusedId(ids: set<nat>) returns (id: nat)
    ensures forall i :: i in ids ==> i < id
  {
    if ids == {} {
      id := 0;
    } else {
      var i :| i in ids;
      var j := UnusedId(ids - {i});
      id := if i < j then j else i + 1;
      forall x | x in ids ensures x < id {
        assert x == i || x in ids - {i};
      }
    }
  }

  lemma NewcomersWipeNothing(s: State, id: nat, key: Key, counts: Counts, stale: nat)
    ensures SafeWipes(s, Newcoming(id, key, counts) + [EComplete(stale)])
  {
    NoWipeIsSafe(s, Newcoming(id, key, counts) + [EComplete(stale)]);
  }

  lemma {:induction false} NoWipeIsSafe(s: State, es: seq<Event>)
    requires forall e :: e in es ==> !e.EWipe?
    ensures SafeWipes(s, es)
  {
    if es != [] {
      NoWipeIsSafe(s, es[..|es| - 1]);
    }
  }

  lemma UnsafeWipeBreaks(s: State, user: nat)
    requires Sound(s) && !WipeIsSafe(s, user)
    ensures exists es :: SafeWipes(Wipe(s, user), es) && !FilesMatch(Play(Wipe(s, user), es))
  {
    var stale :| stale in s.calls && s.calls[stale].key.user == user && s.calls[stale].phase.Writing?;
    var t, c := Wipe(s, user), s.calls[stale];
    var id := UnusedId(s.calls.Keys);
    assert IsCurrent(s, stale) && id !in s.calls;
    StaleCallMarks(t, stale, id);
    NewcomersWipeNothing(t, id, c.key, c.phase.counts, stale);
    assert SafeWipes(t, Newcoming(id, c.key, c.phase.counts) + [EComplete(stale)]);
  }

  lemma SoundWipeIsSafeExactly(s: State, user: nat)
    requires Sound(s)
    ensures WipeIsSafe(s, user) <==> forall es :: SafeWipes(Wipe(s, user), es) ==> FilesMatch(Play(Wipe(s, user), es))
  {
    if WipeIsSafe(s, user) {
      SafeStepKeepsSound(s, EWipe(user));
      forall es | SafeWipes(Wipe(s, user), es) ensures FilesMatch(Play(Wipe(s, user), es)) {
        SafeWipesKeepSound(Wipe(s, user), es);
      }
    } else {
      UnsafeWipeBreaks(s, user);
    }
  }

  /**
    While every wipe is made when no call of its owner is between writing its
    rows and marking their ledger, every completed ledger speaks of its own
    files; and the condition cannot be relaxed: the first wipe that breaks it can
    be followed, without another that does, by calls that complete a ledger whose
    files nobody wrote.
  */
  lemma WipeIsSafeExactly(es: seq<Event>, user: nat)
    requires SafeWipes(Init(), es)
    ensures FilesMatch(Run(es))
    ensures var t := Wipe(Run(es), user);
            WipeIsSafe(Run(es), user) <==> forall more :: SafeWipes(t, more) ==> FilesMatch(Play(t, more))
  {
    SafeWipesKeepSound(Init(), es);
    SoundWipeIsSafeExactly(Run(es), user);
  }

  // ---- Without the condition the promise fails ----

  /** A call that has written its rows and is writing files when its owner is wiped. */
  lemma CallOutlivesWipe(k: Key, c: Counts) returns (s: State)
    ensures Reachable(s) && s.ledgers == map[] && s.calls == map[0 := Call(k, 0, Writing(c, 0))]
            && Epoch(s, k.user) == 1
  {
    assert Run([]) == Init();
    s := After(Init(), EBegin(0, k));
    assert s.calls == map[0 := Call(k, 0, Begun)] && s.ledgers == map[] && s.epochs == map[];
    s := After(s, ELookUp(0));
    assert s.calls == map[0 := Call(k, 0, Prepared(0))] && s.ledgers == map[] && s.epochs == map[];
    s := After(s, EApply(0, Commits(c)));
    assert s.calls == map[0 := Call(k, 0, Writing(c, 0))] && s.ledgers == map[k := Ledger(c, 0, None)]
           && s.epochs == map[];
    s := After(s, EWipe(k.user));
  }

  /** The call then marks the ledger of a later call that stopped before it had written any file. */
  lemma StaleCallCompletesNewLedger() returns (s: State)
    ensures Reachable(s) && !FilesMatch(s)
  {
    var k, c := Key(1, 7), Counts(5, 0);
    var t := CallOutlivesWipe(k, c);
    StaleCallMarks(t, 0, 1);
    s := Play(t, Newcoming(1, k, c) + [EComplete(0)]);
    PlayIsReachable(t, Newcoming(1, k, c) + [EComplete(0)]);
  }

  lemma {:induction false} PlayIsReachable(s: State, es: seq<Event>)
    requires Reachable(s)
    ensures Reachable(Play(s, es))
  {
    if es != [] {
      PlayIsReachable(s, es[..|es| - 1]);
      StepIsReachable(Play(s, es[..|es| - 1]), es[|es| - 1]);
    }
  }

  lemma After(s: State, e: Event) returns (t: State)
    requires Reachable(s)
    ensures Reachable(t) && t == Step(s, e)
  {
    StepIsReachable(s, e);
    t := Step(s, e);
  }
}
