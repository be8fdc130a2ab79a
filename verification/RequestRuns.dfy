/**
  Requests that take two transactions. A login code is tested only by a request
  that has just charged a guess for it, and a provider's identity is linked only
  by the request that took the redirect back; other requests, and crashes, may
  come in between.
*/
module RequestRuns {
  import opened Sets
  import opened Wrappers
  import ChallengeRuns
  import EpochTheorems
  import opened TwoFactorFrames
  import opened TwoFactorModel

  /** A guess charged for a challenge, whose code is still to be tested, and the lineage it was charged to. */
  datatype Charge = Charge(challenge: nat, root: nat)

  /**
    The tables and the requests under way: charges not yet tested, redirects
    taken back and not yet linked. `tested` lists the lineages codes were tested
    for and `linked` the redirects that were linked; the program stores neither.
  */
  datatype Server = Server(s: State, charges: map<nat, Charge>, redirects: map<nat, nat>, tested: seq<nat>,
                           linked: seq<nat>)

  datatype Event =
    | ECharge(request: nat, id: nat)
    | ETest(request: nat, login: ChallengeProof)
    | ETake(request: nat, id: nat)
    | ELink(request: nat, ok: bool)
    | EDrop(request: nat)
    | EOther(work: TwoFactorModel.Event)

  function Init(): (p: Server) {
    Server(TwoFactorModel.Init(), map[], map[], [], [])
  }

  /** The transaction gets as far as comparing the code. */
  predicate Tests(s: State, id: nat) {
    LiveChallenge(s, id) && s.ch.rows[id].purpose == Totp2fa && s.ch.rows[id].attempts <= MAX_ATTEMPTS
  }

  /** It gets that far exactly when it accepts the code or answers that the code is wrong. */
  lemma TestsExactly(s: State, id: nat, login: ChallengeProof)
    ensures var reply := Complete2FA(s, id, login).1;
            Tests(s, id) <==> reply.LoggedIn? || reply == Failed(BadCredentials)
  {
  }

  function ChargeGuess(p: Server, request: nat, id: nat): (q: Server) {
    var (t, reply) := BumpAttempt(p.s, id);
    if request in p.charges || !reply.Charged? then p
    else p.(s := t, charges := p.charges[request := Charge(id, p.s.ch.rows[id].root)])
  }

  ghost function TestCode(p: Server, request: nat, login: ChallengeProof): (q: Server) {
    if request !in p.charges then p
    else
      var charge := p.charges[request];
      p.(s := TwoFactorModel.Step(p.s, EComplete2FA(charge.challenge, login)).0, charges := p.charges - {request},
         tested := if Tests(p.s, charge.challenge) then p.tested + [p.s.ch.rows[charge.challenge].root] else p.tested)
  }

  function TakeBack(p: Server, request: nat, id: nat): (q: Server) {
    var (t, reply) := TakeLinkState(p.s, id);
    if request in p.redirects || !reply.Done? then p
    else p.(s := t, redirects := p.redirects[request := id])
  }

  function Link(p: Server, request: nat, ok: bool): (q: Server) {
    if request !in p.redirects then p
    else
      var id := p.redirects[request];
      var (t, reply) := LinkIdentity(p.s, id, ok);
      p.(s := t, redirects := p.redirects - {request}, linked := if reply.Done? then p.linked + [id] else p.linked)
  }

  /** Every other transaction, charging and taking back included, may also happen on its own. */
  ghost function Step(p: Server, e: Event): (q: Server) {
    match e
    case ECharge(request, id) => ChargeGuess(p, request, id)
    case ETest(request, login) => TestCode(p, request, login)
    case ETake(request, id) => TakeBack(p, request, id)
    case ELink(request, ok) => Link(p, request, ok)
    case EDrop(request) => p.(charges := p.charges - {request}, redirects := p.redirects - {request})
    case EOther(work) =>
      if work.EComplete2FA? || work.ELinkIdentity? then p else p.(s := TwoFactorModel.Step(p.s, work).0)
  }

  ghost function Run(es: seq<Event>): (p: Server) {
    if es == [] then Init() else Step(Run(es[..|es| - 1]), es[|es| - 1])
  }

  /** The transactions of a server's requests are those of the model, so every run of theirs is one of its runs. */
  lemma StepIsReachable(p: Server, e: Event)
    requires Reachable(p.s)
    ensures Reachable(Step(p, e).s)
  {
    match e
    case ECharge(_, id) => TwoFactorModel.StepIsReachable(p.s, EBumpAttempt(id));
    case ETest(request, login) =>
      if request in p.charges {
        TwoFactorModel.StepIsReachable(p.s, EComplete2FA(p.charges[request].challenge, login));
      }
    case ETake(_, id) => TwoFactorModel.StepIsReachable(p.s, ETakeLinkState(id));
    case ELink(_, _) =>
    case EDrop(_) =>
    case EOther(work) => TwoFactorModel.StepIsReachable(p.s, work);
  }

  // ---- At most five codes are tested for a login ----

  function Waiting(p: Server, root: nat): (r: set<nat>) {
    set request | request in p.charges && p.charges[request].root == root
  }

  /** A charge names a challenge of its lineage. */
  predicate ChargeInv(s: State, charge: Charge) {
    && charge.challenge < s.next && charge.root in s.ch.lineages
    && (charge.challenge in s.ch.rows ==> s.ch.rows[charge.challenge].root == charge.root)
  }

  /** What was tested and what is still to be tested for a lineage has been charged to it. */
  predicate Paid(p: Server, root: nat) {
    if root in p.s.ch.lineages then multiset(p.tested)[root] + |Waiting(p, root)| <= p.s.ch.lineages[root].guesses
    else root !in p.tested
  }

  ghost predicate TestsInv(p: Server) {
    (forall request :: request in p.charges ==> ChargeInv(p.s, p.charges[request])) && forall root: nat :: Paid(p, root)
  }

  /** Challenges and lineages have ids that were handed out, and a challenge its lineage. */
  ghost predicate IdsInv(s: State) {
    && (forall root :: root in s.ch.lineages ==> root < s.next)
    && (forall id :: id in s.ch.rows ==> id < s.next && s.ch.rows[id].root in s.ch.lineages)
  }

  lemma ReachableHasIds(s: State)
    requires Reachable(s)
    ensures IdsInv(s)
  {
    var es :| TwoFactorModel.Run(es) == s;
    ChallengeRuns.RunKeepsInv(es);
    forall root | root in s.ch.lineages ensures root < s.next {
      assert ChallengeRuns.LineInv(s, root);
    }
    forall id | id in s.ch.rows ensures id < s.next && s.ch.rows[id].root in s.ch.lineages {
      assert ChallengeRuns.RowInv(s, id);
    }
  }

  /** Lineages are never forgotten and their guesses never taken back; a new one has a new id. */
  ghost predicate LinesEvolve(s: State, t: State) {
    && t.next >= s.next
    && (forall root :: root in s.ch.lineages ==>
          root in t.ch.lineages && t.ch.lineages[root].guesses >= s.ch.lineages[root].guesses)
    && (forall root :: root in t.ch.lineages && root !in s.ch.lineages ==> root >= s.next)
  }

  lemma ChargeEvolvesLines(s: State, e: TwoFactorModel.Event)
    requires e.EBumpAttempt? || e.ESendCode?
    ensures LinesEvolve(s, TwoFactorModel.Step(s, e).0)
  {
  }

  lemma CreationEvolvesLines(s: State, e: TwoFactorModel.Event)
    requires e.ECreateChallenge? && forall root :: root in s.ch.lineages ==> root < s.next
    ensures LinesEvolve(s, TwoFactorModel.Step(s, e).0)
  {
  }

  lemma SpendingEvolvesLines(s: State, t: State, id: nat)
    requires SpendsOnly(s, t, id) && t.next >= s.next
    ensures LinesEvolve(s, t)
  {
  }

  lemma StepEvolvesLines(s: State, e: TwoFactorModel.Event)
    requires forall root :: root in s.ch.lineages ==> root < s.next
    ensures LinesEvolve(s, TwoFactorModel.Step(s, e).0)
  {
    if e.EBumpAttempt? || e.ESendCode? {
      ChargeEvolvesLines(s, e);
    } else if e.ECreateChallenge? {
      CreationEvolvesLines(s, e);
    } else if Spends(e) {
      var id := if Target(e).Some? then Target(e).value else 0;
      ClocksRun(s, e);
      SpendsTarget(s, e, id);
      SpendingEvolvesLines(s, TwoFactorModel.Step(s, e).0, id);
    } else {
      OtherStepsKeepLines(s, e);
    }
  }

  lemma OtherStepsKeepLines(s: State, e: TwoFactorModel.Event)
    requires !TouchesChallenges(e) || e.EDeleteUser? || e.ESweep?
    ensures LinesEvolve(s, TwoFactorModel.Step(s, e).0)
  {
    ClocksRun(s, e);
    if !TouchesChallenges(e) {
      ChallengesStay(s, e);
    }
  }

  /** What any transaction of the model does to challenges and lineages. */
  ghost predicate Evolves(s: State, t: State) {
    IdsInv(s) && LinesEvolve(s, t) && RowsEvolve(s, t)
  }

  lemma ModelStepEvolves(s: State, e: TwoFactorModel.Event)
    requires Reachable(s)
    ensures Evolves(s, TwoFactorModel.Step(s, e).0)
  {
    ReachableHasIds(s);
    StepEvolvesLines(s, e);
    StepEvolvesRows(s, e);
  }

  lemma ChargeStays(s: State, t: State, charge: Charge)
    requires Evolves(s, t) && ChargeInv(s, charge)
    ensures ChargeInv(t, charge)
  {
  }

  /** The tables move on, and what was tested and is waiting stays or shrinks. */
  lemma QuietStepKeepsTests(p: Server, q: Server)
    requires TestsInv(p) && Evolves(p.s, q.s) && q.tested == p.tested
    requires forall r :: r in q.charges ==> r in p.charges && q.charges[r] == p.charges[r]
    ensures TestsInv(q)
  {
    forall r | r in q.charges ensures ChargeInv(q.s, q.charges[r]) {
      ChargeStays(p.s, q.s, p.charges[r]);
    }
    forall root: nat ensures Paid(q, root) {
      assert Paid(p, root);
      SubsetIsSmaller(Waiting(q, root), Waiting(p, root));
      NewLineIsUntouched(p, q, root);
    }
  }

  lemma NewLineIsUntouched(p: Server, q: Server, root: nat)
    requires TestsInv(p) && Evolves(p.s, q.s)
    ensures root in q.s.ch.lineages && root !in p.s.ch.lineages ==> root !in p.tested && Waiting(p, root) == {}
  {
    assert Paid(p, root);
    if root in q.s.ch.lineages && root !in p.s.ch.lineages {
      forall r | r in p.charges ensures p.charges[r].root != root {
        assert ChargeInv(p.s, p.charges[r]);
      }
    }
  }

  /** One request less is waiting, and its code may have been tested. */
  lemma TestedKeepsTests(p: Server, q: Server, request: nat)
    requires TestsInv(p) && Evolves(p.s, q.s) && request in p.charges && q.charges == p.charges - {request}
    requires q.tested == p.tested || q.tested == p.tested + [p.charges[request].root]
    ensures TestsInv(q)
  {
    forall r | r in q.charges ensures ChargeInv(q.s, q.charges[r]) {
      ChargeStays(p.s, q.s, p.charges[r]);
    }
    assert ChargeInv(p.s, p.charges[request]);
    forall root: nat ensures Paid(q, root) {
      assert Paid(p, root);
      OneLessWaits(p, q, request, root);
      NewLineIsUntouched(p, q, root);
    }
  }

  lemma OneLessWaits(p: Server, q: Server, request: nat, root: nat)
    requires request in p.charges && q.charges == p.charges - {request}
    ensures |Waiting(q, root)| == |Waiting(p, root)| - (if p.charges[request].root == root then 1 else 0)
  {
    assert Waiting(q, root) == Waiting(p, root) - {request};
  }

  lemma TestingKeepsTests(p: Server, request: nat, login: ChallengeProof)
    requires TestsInv(p) && Reachable(p.s) && request in p.charges
    ensures TestsInv(TestCode(p, request, login))
  {
    assert ChargeInv(p.s, p.charges[request]);
    ModelStepEvolves(p.s, EComplete2FA(p.charges[request].challenge, login));
    TestIs(p, request, login);
    TestedKeepsTests(p, TestCode(p, request, login), request);
  }

  lemma TestIs(p: Server, request: nat, login: ChallengeProof)
    requires request in p.charges && ChargeInv(p.s, p.charges[request])
    ensures var q := TestCode(p, request, login);
      && q.s == TwoFactorModel.Step(p.s, EComplete2FA(p.charges[request].challenge, login)).0
      && q.charges == p.charges - {request}
      && (q.tested == p.tested || q.tested == p.tested + [p.charges[request].root])
  {
  }

  /** A charged guess is one more guess, and one more request waiting. */
  lemma ChargedKeepsTests(p: Server, q: Server, request: nat, charge: Charge)
    requires TestsInv(p) && Evolves(p.s, q.s) && q.tested == p.tested
    requires request !in p.charges && q.charges == p.charges[request := charge] && ChargeInv(q.s, charge)
    requires charge.root in p.s.ch.lineages
             && q.s.ch.lineages[charge.root].guesses == p.s.ch.lineages[charge.root].guesses + 1
    ensures TestsInv(q)
  {
    forall r | r in q.charges ensures ChargeInv(q.s, q.charges[r]) {
      if r != request {
        ChargeStays(p.s, q.s, p.charges[r]);
      }
    }
    forall root: nat ensures Paid(q, root) {
      assert Paid(p, root);
      assert Waiting(q, root) == Waiting(p, root) + (if root == charge.root then {request} else {});
      NewLineIsUntouched(p, q, root);
    }
  }

  lemma ChargingKeepsTests(p: Server, request: nat, id: nat)
    requires TestsInv(p) && Reachable(p.s)
    ensures TestsInv(ChargeGuess(p, request, id))
  {
    var q := ChargeGuess(p, request, id);
    if q != p {
      ModelStepEvolves(p.s, EBumpAttempt(id));
      ChargedKeepsTests(p, q, request, Charge(id, p.s.ch.rows[id].root));
    }
  }

  lemma OtherStepKeepsTests(p: Server, e: TwoFactorModel.Event, q: Server)
    requires TestsInv(p) && Reachable(p.s) && q.s == TwoFactorModel.Step(p.s, e).0 && q.tested == p.tested
    requires forall r :: r in q.charges ==> r in p.charges && q.charges[r] == p.charges[r]
    ensures TestsInv(q)
  {
    ModelStepEvolves(p.s, e);
    QuietStepKeepsTests(p, q);
  }

  /** What the requests that test no code, and the other transactions, do to the tables. */
  lemma OtherEventIs(p: Server, e: Event) returns (work: TwoFactorModel.Event)
    requires !e.ECharge? && !e.ETest?
    ensures Step(p, e).s == TwoFactorModel.Step(p.s, work).0 && Step(p, e).tested == p.tested
    ensures forall r :: r in Step(p, e).charges ==> r in p.charges && Step(p, e).charges[r] == p.charges[r]
  {
    work := ETick(0);
    if e.EOther? && !e.work.EComplete2FA? && !e.work.ELinkIdentity? {
      work := e.work;
    } else if e.ETake? && Step(p, e) != p {
      work := ETakeLinkState(e.id);
    }
  }

  lemma StepKeepsTests(p: Server, e: Event)
    requires TestsInv(p) && Reachable(p.s)
    ensures TestsInv(Step(p, e))
  {
    if e.ECharge? {
      ChargingKeepsTests(p, e.request, e.id);
    } else if e.ETest? {
      if e.request in p.charges {
        TestingKeepsTests(p, e.request, e.login);
      }
    } else {
      var work := OtherEventIs(p, e);
      OtherStepKeepsTests(p, work, Step(p, e));
    }
  }

  lemma {:induction false} RunKeepsTests(es: seq<Event>)
    ensures Reachable(Run(es).s) && TestsInv(Run(es))
  {
    if es == [] {
      assert TwoFactorModel.Run([]) == Run(es).s;
    } else {
      RunKeepsTests(es[..|es| - 1]);
      StepIsReachable(Run(es[..|es| - 1]), es[|es| - 1]);
      StepKeepsTests(Run(es[..|es| - 1]), es[|es| - 1]);
    }
  }

  /**
    However often a challenge is replaced, however requests interleave and
    wherever they die, at most five codes are ever tested for one login: for the
    challenge that opened it and all that replace it.
  */
  lemma FiveCodesPerLogin(es: seq<Event>, root: nat)
    ensures Reachable(Run(es).s) && multiset(Run(es).tested)[root] <= 5
  {
    var p := Run(es);
    RunKeepsTests(es);
    var trace :| TwoFactorModel.Run(trace) == p.s;
    ChallengeRuns.RunKeepsInv(trace);
    assert Paid(p, root);
    assert root in p.s.ch.lineages ==> ChallengeRuns.LineInv(p.s, root);
  }

  // ---- A redirect links one identity ----

  function Holding(p: Server, id: nat): (r: set<nat>) {
    set request | request in p.redirects && p.redirects[request] == id
  }

  /** A redirect is held by the one request that took it back, or was linked by it. */
  ghost predicate RedirectInv(p: Server, id: nat) {
    var uses := multiset(p.linked)[id] + |Holding(p, id)|;
    uses <= 1 && (uses == 1 ==> EpochTheorems.Taken(p.s, id))
  }

  lemma TakingKeepsRedirects(p: Server, request: nat, id: nat, x: nat)
    requires RedirectInv(p, x) && EpochTheorems.ArtefactsInv(p.s)
    ensures RedirectInv(TakeBack(p, request, id), x)
  {
    var q := TakeBack(p, request, id);
    if q != p {
      TakingTakes(p.s, id, x);
      assert Holding(q, x) == Holding(p, x) + (if x == id then {request} else {});
    }
  }

  lemma TakingTakes(s: State, id: nat, x: nat)
    requires EpochTheorems.ArtefactsInv(s) && TakeLinkState(s, id).1.Done?
    ensures !EpochTheorems.Taken(s, id) && EpochTheorems.Taken(TakeLinkState(s, id).0, id)
    ensures EpochTheorems.Taken(s, x) ==> EpochTheorems.Taken(TakeLinkState(s, id).0, x)
  {
  }

  lemma LinkingKeepsRedirects(p: Server, request: nat, ok: bool, x: nat)
    requires RedirectInv(p, x) && request in p.redirects
    ensures RedirectInv(Link(p, request, ok), x)
  {
    var q := Link(p, request, ok);
    assert Holding(q, x) == Holding(p, x) - {request};
  }

  lemma OtherStepKeepsRedirects(p: Server, q: Server, e: TwoFactorModel.Event, x: nat)
    requires RedirectInv(p, x) && q.s == TwoFactorModel.Step(p.s, e).0 && q.linked == p.linked
    requires forall r :: r in q.redirects ==> r in p.redirects && q.redirects[r] == p.redirects[r]
    ensures RedirectInv(q, x)
  {
    SubsetIsSmaller(Holding(q, x), Holding(p, x));
    if EpochTheorems.Taken(p.s, x) {
      EpochTheorems.TakenStays(p.s, e, x);
    }
  }

  /** What the requests that hold no redirect, and the other transactions, do to the tables. */
  lemma UnrelatedEventIs(p: Server, e: Event) returns (work: TwoFactorModel.Event)
    requires !e.ETake? && !e.ELink?
    ensures Step(p, e).s == TwoFactorModel.Step(p.s, work).0 && Step(p, e).linked == p.linked
    ensures forall r :: r in Step(p, e).redirects ==> r in p.redirects && Step(p, e).redirects[r] == p.redirects[r]
  {
    work := ETick(0);
    if e.EOther? && !e.work.EComplete2FA? && !e.work.ELinkIdentity? {
      work := e.work;
    } else if e.ECharge? && Step(p, e) != p {
      work := EBumpAttempt(e.id);
    } else if e.ETest? && e.request in p.charges {
      work := EComplete2FA(p.charges[e.request].challenge, e.login);
    }
  }

  lemma StepKeepsRedirects(p: Server, e: Event, x: nat)
    requires RedirectInv(p, x) && EpochTheorems.ArtefactsInv(p.s)
    ensures RedirectInv(Step(p, e), x)
  {
    if e.ETake? {
      TakingKeepsRedirects(p, e.request, e.id, x);
    } else if e.ELink? {
      if e.request in p.redirects {
        LinkingKeepsRedirects(p, e.request, e.ok, x);
      }
    } else {
      var work := UnrelatedEventIs(p, e);
      OtherStepKeepsRedirects(p, Step(p, e), work, x);
    }
  }

  /**
    Each redirect links an identity at most once, in every run: the request that
    took it back is the only one to try.
  */
  lemma {:induction false} LinkedOnce(es: seq<Event>, id: nat)
    ensures RedirectInv(Run(es), id) && multiset(Run(es).linked)[id] <= 1
  {
    if es != [] {
      LinkedOnce(es[..|es| - 1], id);
      RunKeepsTests(es[..|es| - 1]);
      var trace :| TwoFactorModel.Run(trace) == Run(es[..|es| - 1]).s;
      EpochTheorems.RunKeepsArtefacts(trace);
      StepKeepsRedirects(Run(es[..|es| - 1]), es[|es| - 1], id);
    }
  }
}
