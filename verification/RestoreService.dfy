/** One restore call from beginning to end, over the ledger tables as an object. */
module RestoreService {
  import opened Wrappers
  import opened RestoreLedger

  datatype Error = RestoreFailed | FilesFailed

  class Service {
    var ledgers: map<Key, Ledger>
    var epochs: map<nat, nat>
    var calls: map<nat, Call>
    ghost var log: seq<Insertion>

    ghost function St(): (s: State)
      reads this
    {
      State(ledgers, epochs, calls, log)
    }

    ghost predicate Valid()
      reads this
    {
      Reachable(St())
    }

    constructor ()
      ensures Valid() && St() == Init()
    {
      ledgers, epochs, calls, log := map[], map[], map[], [];
      new;
      assert Run([]) == St();
    }

    method Begin(id: nat, key: Key)
      requires Valid() && id !in calls
      modifies this
      ensures Valid() && St() == Step(old(St()), EBegin(id, key))
    {
      StepIsReachable(St(), EBegin(id, key));
      calls := calls[id := Call(key, if key.user in epochs then epochs[key.user] else 0, Begun)];
    }

    method Goto(id: nat, phase: Phase)
      requires id in calls
      modifies `calls
      ensures St() == Move(old(St()), id, phase)
    {
      calls := calls[id := calls[id].(phase := phase)];
    }

    /** The look before any work: outside the transaction, without the lock. */
    method LookUp(id: nat)
      requires Valid() && At(St(), id, Begun)
      modifies this
      ensures Valid() && St() == Step(old(St()), ELookUp(id))
    {
      StepIsReachable(St(), ELookUp(id));
      if calls[id].key in ledgers {
        Goto(id, Resume(ledgers[calls[id].key]));
      } else {
        Goto(id, Prepared(0));
      }
    }

    /** One attempt at the transaction that writes the rows and their ledger. */
    method ApplyTransaction(id: nat, attempt: Attempt)
      requires Valid() && id in calls && calls[id].phase.Prepared?
      modifies this
      ensures Valid() && St() == Step(old(St()), EApply(id, attempt))
    {
      StepIsReachable(St(), EApply(id, attempt));
      var tries := calls[id].phase.tries + 1;
      match attempt
      case Breaks => Goto(id, Stopped);
      case Races => Goto(id, if tries < MAX_SLUG_ATTEMPTS then Prepared(tries) else Stopped);
      case Commits(counts) =>
        var key := calls[id].key;
        if key in ledgers {
          Goto(id, Resume(ledgers[key]));
        } else {
          var epoch := if key.user in epochs then epochs[key.user] else 0;
          ledgers := ledgers[key := Ledger(counts, epoch, None)];
          log := log + [Insertion(key, epoch, counts)];
          Goto(id, Writing(counts, epoch));
        }
    }

    method CompleteLedger(id: nat)
      requires Valid() && id in calls && calls[id].phase.Writing?
      modifies this
      ensures Valid() && St() == Step(old(St()), EComplete(id))
    {
      StepIsReachable(St(), EComplete(id));
      var call := calls[id];
      if call.key !in ledgers {
        Goto(id, Stopped);
      } else {
        ledgers := ledgers[call.key := ledgers[call.key].(files := Some(call.phase.epoch))];
        Goto(id, Returned(call.phase.counts, call.phase.epoch));
      }
    }

    method Stop(id: nat)
      requires Valid() && id in calls && !calls[id].phase.Returned?
      modifies this
      ensures Valid() && St() == Step(old(St()), EStop(id))
    {
      StepIsReachable(St(), EStop(id));
      Goto(id, Stopped);
    }

    /** The transaction, tried again while it loses to a concurrent writer of slugs. */
    method WriteRows(id: nat, attempts: seq<Attempt>)
      requires Valid() && id in calls && |attempts| == MAX_SLUG_ATTEMPTS
      requires calls[id].phase.Prepared? ==> calls[id].phase.tries == 0
      requires Told(St(), id) && !calls[id].phase.Begun?
      modifies this
      ensures Valid() && id in calls && Told(St(), id) && Since(old(St()), St(), old(calls[id].key))
      ensures calls[id].key == old(calls[id].key)
      ensures calls[id].phase.Stopped? || calls[id].phase.Writing? || calls[id].phase.Returned?
      ensures calls[id].phase.Stopped? ==> St().log == old(St()).log
      ensures !old(calls[id]).phase.Prepared? ==> St() == old(St())
      ensures OnlyCall(old(St()), St(), id)
      ensures old(calls[id]).phase.Prepared? && old(calls[id]).key !in old(ledgers) ==>
                Outcome(attempts, calls[id].phase, MAX_SLUG_ATTEMPTS)
                && (calls[id].phase.Writing? ==> Inserted(old(St()), St(), calls[id].key, calls[id].phase.counts))
    {
      var i := 0;
      while calls[id].phase.Prepared?
        invariant Valid() && id in calls && calls[id].key == old(calls[id].key) && 0 <= i <= MAX_SLUG_ATTEMPTS
        invariant calls[id].phase.Prepared? ==> calls[id].phase.tries == i < MAX_SLUG_ATTEMPTS
        invariant calls[id].phase.Prepared? || calls[id].phase.Stopped? ==> St().log == old(St()).log
        invariant !calls[id].phase.Begun? && Told(St(), id) && Since(old(St()), St(), calls[id].key)
        invariant !old(calls[id]).phase.Prepared? ==> St() == old(St())
        invariant OnlyCall(old(St()), St(), id)
        invariant calls[id].phase.Prepared? ==>
                    ledgers == old(ledgers) && epochs == old(epochs) && forall j :: 0 <= j < i ==> attempts[j].Races?
        invariant (&& old(calls[id]).phase.Prepared? && old(calls[id]).key !in old(ledgers)
                   && !calls[id].phase.Prepared?)
                  ==> Outcome(attempts, calls[id].phase, i)
                      && (calls[id].phase.Writing? ==> Inserted(old(St()), St(), calls[id].key, calls[id].phase.counts))
        decreases MAX_SLUG_ATTEMPTS - i
      {
        AttemptTells(old(St()), St(), id, attempts[i]);
        AttemptEnds(old(St()), St(), id, attempts, i);
        ApplyTransaction(id, attempts[i]);
        i := i + 1;
      }
    }

    /** What is left once the rows are in: the files, and the mark that says so. */
    method WriteFiles(id: nat, filesOk: bool) returns (r: Result<Counts, Error>)
      requires Valid() && id in calls && Told(St(), id)
      requires calls[id].phase.Stopped? || calls[id].phase.Writing? || calls[id].phase.Returned?
      modifies this
      ensures Valid() && log == old(log) && OnlyCall(old(St()), St(), id)
      ensures var key := old(calls[id]).key;
              match old(calls[id]).phase
              case Returned(counts, _) => r == Ok(counts) && ledgers == old(ledgers)
              case Writing(counts, epoch) =>
                && key in old(ledgers)
                && if filesOk
                   then r == Ok(counts) && ledgers == old(ledgers)[key := old(ledgers)[key].(files := Some(epoch))]
                   else r == Err(FilesFailed) && ledgers == old(ledgers)
              case _ => r == Err(RestoreFailed) && ledgers == old(ledgers)
    {
      match calls[id].phase
      case Returned(counts, _) => return Ok(counts);
      case Writing(counts, _) =>
        if !filesOk {
          Stop(id);
          return Err(FilesFailed);
        }
        CompleteLedger(id);
        return Ok(counts);
      case _ => return Err(RestoreFailed);
    }

    /**
      A restore in skip mode with nothing else going on: `attempts` says how each
      transaction would end, `filesOk` whether the file phase works. Whatever
      happens the rows go in at most once, an archive already in the ledger is
      only reported, and a success leaves a completed ledger with its counts.
    */
    method Restore(id: nat, key: Key, attempts: seq<Attempt>, filesOk: bool) returns (r: Result<Counts, Error>)
      requires Valid() && id !in calls && |attempts| == MAX_SLUG_ATTEMPTS
      modifies this
      ensures Valid() && Since(old(St()), St().(ledgers := Unmarked(ledgers, key, old(ledgers))), key)
      ensures r.Ok? ==> key in ledgers && ledgers[key].counts == r.value && ledgers[key].files.Some?
      ensures r.Ok? && old(key in ledgers) ==> r.value == old(ledgers[key]).counts
      ensures r == Err(RestoreFailed) ==> ledgers == old(ledgers) && log == old(log)
      ensures OnlyCall(old(St()), St(), id)
      ensures key in old(ledgers) ==> (r.Ok? <==> old(ledgers)[key].files.Some? || filesOk)
      ensures key in old(ledgers) && old(ledgers)[key].files.Some? ==> ledgers == old(ledgers)
      ensures key in old(ledgers) && r.Err? ==> r == Err(FilesFailed)
      ensures key !in old(ledgers) ==>
                match r
                case Ok(counts) =>
                  && filesOk && Lands(attempts, MAX_SLUG_ATTEMPTS, counts)
                  && log == old(log) + [Insertion(key, Epoch(old(St()), key.user), counts)]
                case Err(FilesFailed) => !filesOk && exists counts :: Lands(attempts, MAX_SLUG_ATTEMPTS, counts)
                case Err(RestoreFailed) => forall counts :: !Lands(attempts, MAX_SLUG_ATTEMPTS, counts)
    {
      Begin(id, key);
      LookUp(id);
      WriteRows(id, attempts);
      r := WriteFiles(id, filesOk);
      assert key in old(ledgers) || Unmarked(ledgers, key, old(ledgers)) == ledgers;
    }
  }

  /** What a call has been told is what its ledger row says. */
  ghost predicate Told(s: State, id: nat)
    requires id in s.calls
  {
    var call := s.calls[id];
    && (call.phase.Writing? || call.phase.Returned? ==>
          call.key in s.ledgers && s.ledgers[call.key].counts == call.phase.counts)
    && (call.phase.Returned? ==> s.ledgers[call.key].files.Some?)
  }

  /** The archive's rows went in at most once since `before`, and not at all where its ledger was there. */
  ghost predicate Since(before: State, s: State, key: Key) {
    && before.log <= s.log && |s.log| <= |before.log| + 1
    && (s.log == before.log ==> s.ledgers == before.ledgers)
    && (key in before.ledgers ==> s.log == before.log)
    && (forall k :: k != key ==>
          (k in s.ledgers <==> k in before.ledgers) && (k in s.ledgers ==> s.ledgers[k] == before.ledgers[k]))
    && (s.log != before.log ==> key in s.ledgers)
  }

  /** No other call moves, and no owner is wiped. */
  ghost predicate OnlyCall(before: State, s: State, id: nat) {
    && s.epochs == before.epochs && s.calls.Keys == before.calls.Keys + {id}
    && forall i :: i in before.calls && i != id ==> s.calls[i] == before.calls[i]
  }

  /** One of the first `n` attempts commits these counts, and those before it only lost a race. */
  predicate Lands(attempts: seq<Attempt>, n: nat, counts: Counts) {
    exists k :: 0 <= k < |attempts| && k < n && attempts[k] == Commits(counts)
                && forall j :: 0 <= j < k ==> attempts[j].Races?
  }

  /** After `n` attempts a call writes files with the counts that landed, or has stopped and none has. */
  ghost predicate Outcome(attempts: seq<Attempt>, phase: Phase, n: nat) {
    match phase
    case Writing(counts, _) => Lands(attempts, n, counts)
    case Stopped => forall counts :: !Lands(attempts, MAX_SLUG_ATTEMPTS, counts)
    case _ => false
  }

  /** The archive's rows are in, with their ledger; nothing else is. */
  ghost predicate Inserted(before: State, s: State, key: Key, counts: Counts) {
    var epoch := Epoch(before, key.user);
    && s.log == before.log + [Insertion(key, epoch, counts)] && s.epochs == before.epochs
    && s.ledgers == before.ledgers[key := Ledger(counts, epoch, None)]
  }

  lemma AttemptEnds(before: State, s: State, id: nat, attempts: seq<Attempt>, i: nat)
    requires id in s.calls && s.calls[id].phase == Prepared(i) && i < |attempts| == MAX_SLUG_ATTEMPTS
    requires s.log == before.log && s.ledgers == before.ledgers && s.epochs == before.epochs
    requires forall j :: 0 <= j < i ==> attempts[j].Races?
    ensures var t := Apply(s, id, attempts[i]);
      && id in t.calls && t.calls[id].key == s.calls[id].key
      && (t.calls[id].phase.Prepared? ==>
            && t.ledgers == before.ledgers && t.epochs == before.epochs
            && forall j :: 0 <= j < i + 1 ==> attempts[j].Races?)
      && (s.calls[id].key !in before.ledgers && !t.calls[id].phase.Prepared? ==>
            Outcome(attempts, t.calls[id].phase, i + 1)
            && (t.calls[id].phase.Writing? ==> Inserted(before, t, s.calls[id].key, t.calls[id].phase.counts)))
  {
    var t := Apply(s, id, attempts[i]);
    if attempts[i].Commits? {
      assert Lands(attempts, i + 1, attempts[i].counts);
    } else if t.calls[id].phase.Stopped? {
      forall counts ensures !Lands(attempts, MAX_SLUG_ATTEMPTS, counts) {
      }
    }
  }

  lemma AttemptTells(before: State, s: State, id: nat, attempt: Attempt)
    requires id in s.calls && s.calls[id].phase.Prepared? && s.log == before.log && Since(before, s, s.calls[id].key)
    ensures var t := Apply(s, id, attempt);
      && id in t.calls && t.calls[id].key == s.calls[id].key && Told(t, id) && Since(before, t, s.calls[id].key)
      && (t.calls[id].phase.Prepared? || t.calls[id].phase.Stopped? ==> t.log == s.log)
      && (t.calls[id].phase.Prepared? ==> t.calls[id].phase.tries == s.calls[id].phase.tries + 1 < MAX_SLUG_ATTEMPTS)
      && !t.calls[id].phase.Begun?
  {
  }

  /** The table without the mark a completed file phase leaves on the archive's row. */
  ghost function Unmarked(ledgers: map<Key, Ledger>, key: Key, before: map<Key, Ledger>): (r: map<Key, Ledger>) {
    if key in ledgers && key in before then ledgers[key := ledgers[key].(files := before[key].files)] else ledgers
  }
}
