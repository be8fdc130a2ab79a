/** What an account is promised about its login challenges, over every run. */
module ChallengeTheorems {
  import opened Wrappers
  import opened TwoFactorFrames
  import opened TwoFactorModel
  import opened ChallengeRuns

  /** Everything a challenge is bound to. */
  datatype Key = Key(user: nat, purpose: Purpose, epoch: nat)

  function KeyOf(row: Challenge): (k: Key) {
    Key(row.user, row.purpose, row.epoch)
  }

  predicate HasKey(s: State, id: nat, k: Key) {
    id in s.ch.rows && KeyOf(s.ch.rows[id]) == k
  }

  /** The step spends a challenge of the key in any way but replacing it. */
  ghost predicate Closes(s: State, e: Event, k: Key) {
    && !e.ECreateChallenge?
    && exists id :: HasKey(s, id, k) && !s.ch.rows[id].consumed
                    && id in Step(s, e).0.ch.rows && Step(s, e).0.ch.rows[id].consumed
  }

  ghost predicate NeverCloses(s: State, es: seq<Event>, k: Key) {
    es == [] || (NeverCloses(s, es[..|es| - 1], k) && !Closes(Play(s, es[..|es| - 1]), es[|es| - 1], k))
  }

  ghost predicate GuessesOn(s: State, e: Event, k: Key) {
    e.EBumpAttempt? && HasKey(s, e.id, k) && BumpAttempt(s, e.id).1.Charged?
  }

  ghost predicate MailsOn(s: State, e: Event, k: Key) {
    && e.ESendCode? && HasKey(s, e.id, k)
    && SendCode(s, e.id, e.digest, e.ttl, e.cooldown, e.enrolled).1.Mailed?
  }

  ghost function GuessesBy(s: State, e: Event, k: Key): (n: nat) {
    if GuessesOn(s, e, k) then 1 else 0
  }

  ghost function MailsBy(s: State, e: Event, k: Key): (times: seq<int>) {
    if MailsOn(s, e, k) then [s.now] else []
  }

  /** How many guesses were charged to the key's challenges during `es`. */
  ghost function Guesses(s: State, es: seq<Event>, k: Key): (n: nat) {
    if es == [] then 0 else Guesses(s, es[..|es| - 1], k) + GuessesBy(Play(s, es[..|es| - 1]), es[|es| - 1], k)
  }

  /** When codes were mailed for the key's challenges during `es`. */
  ghost function Mails(s: State, es: seq<Event>, k: Key): (times: seq<int>) {
    if es == [] then [] else Mails(s, es[..|es| - 1], k) + MailsBy(Play(s, es[..|es| - 1]), es[|es| - 1], k)
  }

  /** The cooldown a code is mailed under; policy cannot lower it below the floor. */
  ghost function CooldownsBy(s: State, e: Event, k: Key): (gaps: seq<nat>) {
    if MailsOn(s, e, k) then [Max(e.cooldown, RESEND_INTERVAL)] else []
  }

  /** The cooldown each of those codes was mailed under. */
  ghost function Cooldowns(s: State, es: seq<Event>, k: Key): (gaps: seq<nat>) {
    if es == [] then [] else Cooldowns(s, es[..|es| - 1], k) + CooldownsBy(Play(s, es[..|es| - 1]), es[|es| - 1], k)
  }

  /** Each of `times` comes more than its own cooldown after the one before it, the first after the last of `before`. */
  predicate CooledApart(before: seq<int>, times: seq<int>, gaps: seq<nat>) {
    && |gaps| == |times|
    && forall i :: 0 <= i < |times| && |before| + i > 0 ==> times[i] - (before + times)[|before| + i - 1] > gaps[i]
  }

  // ---- A lineage is carried on by one challenge at a time ----

  /** An unspent challenge of the key that continues the lineage. */
  predicate Carries(s: State, id: nat, k: Key, root: nat) {
    HasKey(s, id, k) && !s.ch.rows[id].consumed && s.ch.rows[id].root == root
  }

  /** The account is gone or its credentials have moved on. */
  predicate Gone(s: State, k: Key) {
    Moved(s, k.user, k.epoch)
  }

  ghost predicate Carried(s: State, k: Key, root: nat) {
    Gone(s, k) || exists id :: Carries(s, id, k, root)
  }

  predicate IsLine(s: State, k: Key, root: nat) {
    root in s.ch.lineages && s.ch.lineages[root].user == k.user && s.ch.lineages[root].purpose == k.purpose
    && s.ch.lineages[root].epoch == k.epoch
  }

  lemma GoneStays(s: State, e: Event, k: Key)
    requires Gone(s, k)
    ensures Gone(Step(s, e).0, k)
  {
    MovedStays(s, e, k.user, k.epoch);
  }

  /** A new challenge of the same account and purpose replaces the open one, or proves the credentials moved. */
  lemma CreateCarries(s: State, e: Event, id: nat, k: Key, root: nat)
    requires e.ECreateChallenge? && Carries(s, id, k, root) && s.ch.rows[id].expires > s.now
    requires id < s.next && k.user < s.next && (k.user in s.users ==> k.epoch <= s.users[k.user].epoch)
    requires forall x :: IsPrevious(s, x, k.user, k.purpose, k.epoch) ==> x == id
    ensures Carried(Step(s, e).0, k, root)
  {
    var t := Step(s, e).0;
    if LiveUser(s, e.uid, e.epoch) && k.user == e.uid && k.purpose == e.purpose {
      if e.epoch == k.epoch {
        assert IsPrevious(s, id, e.uid, e.purpose, e.epoch);
        assert Carries(t, s.next, k, root);
      } else {
        assert Gone(t, k);
      }
    } else {
      assert Carries(t, id, k, root);
    }
  }

  lemma ChargeCarries(s: State, e: Event, id: nat, k: Key, root: nat)
    requires e.EBumpAttempt? || e.ESendCode?
    requires Carries(s, id, k, root)
    ensures Carries(Step(s, e).0, id, k, root)
  {
  }

  /** Spending the challenge that carries the lineage closes it; spending another leaves it open. */
  lemma SpendingCarries(s: State, e: Event, id: nat, k: Key, root: nat)
    requires Spends(e) && Carries(s, id, k, root) && !Closes(s, e, k)
    ensures Carries(Step(s, e).0, id, k, root)
  {
    SpendsTarget(s, e, if Target(e).Some? then Target(e).value else 0);
  }

  lemma DeletionCarries(s: State, e: Event, id: nat, k: Key, root: nat)
    requires e.EDeleteUser? || e.ESweep?
    requires Carries(s, id, k, root) && k.user < s.next && s.ch.rows[id].expires > s.now
    ensures Carried(Step(s, e).0, k, root)
  {
    var t := Step(s, e).0;
    if id in t.ch.rows {
      assert Carries(t, id, k, root);
    } else {
      assert Gone(t, k);
    }
  }

  lemma FrameCarries(s: State, t: State, id: nat, k: Key, root: nat)
    requires Carries(s, id, k, root) && Frame(s, t)
    ensures Carried(t, k, root)
  {
    assert Carries(t, id, k, root);
  }

  /** What the invariant says of the challenge that carries a lineage. */
  ghost predicate CarrierInv(s: State, id: nat, k: Key) {
    && id < s.next && k.user < s.next && (k.user in s.users ==> k.epoch <= s.users[k.user].epoch)
    && (forall x :: IsPrevious(s, x, k.user, k.purpose, k.epoch) ==> x == id)
    && (forall u :: u in s.users ==> u < s.next)
  }

  lemma CarrierHasInv(s: State, id: nat, k: Key, root: nat)
    requires Inv(s) && Carries(s, id, k, root)
    ensures CarrierInv(s, id, k) && root in s.ch.lineages
    ensures s.ch.rows[id].expires == s.ch.lineages[root].born + CHALLENGE_TTL
  {
  }

  lemma CarrierStep(s: State, e: Event, id: nat, k: Key, root: nat)
    requires CarrierInv(s, id, k) && Carries(s, id, k, root) && s.ch.rows[id].expires > s.now && !Closes(s, e, k)
    ensures Carried(Step(s, e).0, k, root)
  {
    if e.ECreateChallenge? {
      CreateCarries(s, e, id, k, root);
    } else if e.EBumpAttempt? || e.ESendCode? {
      ChargeCarries(s, e, id, k, root);
    } else if !TouchesChallenges(e) {
      OtherStepsAreFrames(s, e);
      FrameCarries(s, Step(s, e).0, id, k, root);
    } else if e.EDeleteUser? || e.ESweep? {
      DeletionCarries(s, e, id, k, root);
    } else {
      SpendingCarries(s, e, id, k, root);
    }
  }

  lemma StepCarries(s: State, e: Event, k: Key, root: nat)
    requires Inv(s) && Carried(s, k, root) && !Closes(s, e, k)
    requires root in s.ch.lineages && s.ch.lineages[root].born + CHALLENGE_TTL > s.now
    ensures Carried(Step(s, e).0, k, root)
  {
    if Gone(s, k) {
      GoneStays(s, e, k);
    } else {
      var id :| Carries(s, id, k, root);
      CarrierHasInv(s, id, k, root);
      CarrierStep(s, e, id, k, root);
    }
  }

  // ---- Counting ----

  /** The counters of the lineage stand still; the flag can only be raised. */
  ghost predicate CountsNothing(s: State, t: State, root: nat) {
    && root in s.ch.lineages && root in t.ch.lineages
    && var a, b := s.ch.lineages[root], t.ch.lineages[root];
       && b.guesses == a.guesses && b.sent == a.sent && (a.flagged ==> b.flagged)
       && b.born == a.born && b.user == a.user && b.purpose == a.purpose && b.epoch == a.epoch
  }

  lemma OtherStepsCountNothing(s: State, e: Event, root: nat)
    requires root in s.ch.lineages && root < s.next && !e.EBumpAttempt? && !e.ESendCode?
    ensures CountsNothing(s, Step(s, e).0, root)
  {
    if e.ECreateChallenge? {
      CreateCountsNothing(s, e, root);
    } else if Spends(e) {
      var id := if Target(e).Some? then Target(e).value else 0;
      SpendsTarget(s, e, id);
      SpendingCountsNothing(s, Step(s, e).0, id, root);
    } else if !TouchesChallenges(e) {
      ChallengesStay(s, e);
    } else {
      DeletionCountsNothing(s, e, root);
    }
  }

  lemma DeletionCountsNothing(s: State, e: Event, root: nat)
    requires root in s.ch.lineages && (e.EDeleteUser? || e.ESweep?)
    ensures CountsNothing(s, Step(s, e).0, root)
  {
  }

  lemma CreateCountsNothing(s: State, e: Event, root: nat)
    requires root in s.ch.lineages && root < s.next && e.ECreateChallenge?
    ensures CountsNothing(s, Step(s, e).0, root)
  {
  }

  lemma SpendingCountsNothing(s: State, t: State, id: nat, root: nat)
    requires SpendsOnly(s, t, id) && root in s.ch.lineages
    ensures CountsNothing(s, t, root)
  {
  }

  /** The challenge a charge falls on is the one that carries the key. */
  lemma ChargeIsOnCarrier(s: State, id: nat, k: Key, root: nat)
    requires Inv(s) && Carried(s, k, root) && IsLine(s, k, root) && LiveChallenge(s, id)
    ensures HasKey(s, id, k) <==> s.ch.rows[id].root == root
  {
  }

  lemma BumpCounts(s: State, e: Event, k: Key, root: nat)
    requires e.EBumpAttempt? && IsLine(s, k, root)
    requires LiveChallenge(s, e.id) ==> (HasKey(s, e.id, k) <==> s.ch.rows[e.id].root == root)
    ensures var a, b := s.ch.lineages[root], Step(s, e).0.ch.lineages[root];
            b == a.(guesses := a.guesses + (if GuessesOn(s, e, k) then 1 else 0))
  {
  }

  lemma SendCounts(s: State, e: Event, k: Key, root: nat)
    requires e.ESendCode? && IsLine(s, k, root)
    requires LiveChallenge(s, e.id) ==> (HasKey(s, e.id, k) <==> s.ch.rows[e.id].root == root)
    ensures var a, b := s.ch.lineages[root], Step(s, e).0.ch.lineages[root];
            b == a.(sent := a.sent + (if MailsOn(s, e, k) then [s.now] else []))
  {
  }

  /** A lineage was charged so many guesses and so many sends. */
  predicate Grows(a: Lineage, b: Lineage, guesses: nat, mails: seq<int>) {
    && b.user == a.user && b.purpose == a.purpose && b.epoch == a.epoch && b.born == a.born
    && b.guesses == a.guesses + guesses && b.sent == a.sent + mails && (a.flagged ==> b.flagged)
  }

  lemma GrowsOn(a: Lineage, b: Lineage, c: Lineage, n: nat, m: nat, xs: seq<int>, ys: seq<int>)
    requires Grows(a, b, n, xs) && Grows(b, c, m, ys)
    ensures Grows(a, c, n + m, xs + ys)
  {
  }

  /** What one step adds to a lineage of the key. */
  ghost predicate Counts(s: State, e: Event, t: State, k: Key, root: nat)
    requires root in s.ch.lineages
  {
    root in t.ch.lineages && Grows(s.ch.lineages[root], t.ch.lineages[root], GuessesBy(s, e, k), MailsBy(s, e, k))
  }

  lemma ChargeCounts(s: State, e: Event, k: Key, root: nat)
    requires (e.EBumpAttempt? || e.ESendCode?) && IsLine(s, k, root)
    requires LiveChallenge(s, e.id) ==> (HasKey(s, e.id, k) <==> s.ch.rows[e.id].root == root)
    ensures Counts(s, e, Step(s, e).0, k, root)
  {
    if e.EBumpAttempt? {
      BumpCounts(s, e, k, root);
    } else {
      SendCounts(s, e, k, root);
    }
  }

  lemma QuietStepCounts(s: State, e: Event, k: Key, root: nat)
    requires !e.EBumpAttempt? && !e.ESendCode? && IsLine(s, k, root) && root < s.next
    ensures Counts(s, e, Step(s, e).0, k, root)
  {
    OtherStepsCountNothing(s, e, root);
  }

  /** A charge on any challenge of the key is a charge on the one lineage that carries it, and the other way round. */
  lemma StepCounts(s: State, e: Event, k: Key, root: nat)
    requires Inv(s) && Carried(s, k, root) && IsLine(s, k, root)
    ensures Counts(s, e, Step(s, e).0, k, root)
  {
    if e.EBumpAttempt? || e.ESendCode? {
      if LiveChallenge(s, e.id) {
        ChargeIsOnCarrier(s, e.id, k, root);
      }
      ChargeCounts(s, e, k, root);
    } else {
      assert LineInv(s, root);
      QuietStepCounts(s, e, k, root);
    }
  }

  lemma {:induction false} PlayCounts(s: State, es: seq<Event>, k: Key, root: nat)
    requires Inv(s) && Carried(s, k, root) && IsLine(s, k, root) && NeverCloses(s, es, k)
    requires s.ch.lineages[root].born + CHALLENGE_TTL > Play(s, es).now
    ensures Carried(Play(s, es), k, root) && IsLine(Play(s, es), k, root)
    ensures Grows(s.ch.lineages[root], Play(s, es).ch.lineages[root], Guesses(s, es, k), Mails(s, es, k))
  {
    if es != [] {
      var t, e := Play(s, es[..|es| - 1]), es[|es| - 1];
      ClocksRun(t, e);
      PlayCounts(s, es[..|es| - 1], k, root);
      PlayKeepsInv(s, es[..|es| - 1]);
      StepCarries(t, e, k, root);
      StepCounts(t, e, k, root);
      GrowsOn(s.ch.lineages[root], t.ch.lineages[root], Step(t, e).0.ch.lineages[root],
              Guesses(s, es[..|es| - 1], k), GuessesBy(t, e, k), Mails(s, es[..|es| - 1], k), MailsBy(t, e, k));
    }
  }

  lemma CooledOn(before: seq<int>, xs: seq<int>, ys: seq<int>, gs: seq<nat>, hs: seq<nat>)
    requires CooledApart(before, xs, gs) && CooledApart(before + xs, ys, hs)
    ensures CooledApart(before, xs + ys, gs + hs)
  {
    assert (before + xs) + ys == before + (xs + ys);
    forall i | 0 <= i < |xs + ys| && |before| + i > 0
      ensures (xs + ys)[i] - (before + (xs + ys))[|before| + i - 1] > (gs + hs)[i]
    {
      if i < |xs| {
        assert (before + (xs + ys))[|before| + i - 1] == (before + xs)[|before| + i - 1];
      } else {
        assert ys[i - |xs|] - ((before + xs) + ys)[|before + xs| + (i - |xs|) - 1] > hs[i - |xs|];
      }
    }
  }

  /** A code mailed for the key's challenge goes out more than its cooldown after the lineage's last one. */
  lemma MailIsCooled(t: State, id: nat, cooldown: nat, k: Key, root: nat)
    requires Inv(t) && Carried(t, k, root) && IsLine(t, k, root)
    requires HasKey(t, id, k) && LiveChallenge(t, id) && Cooled(t, id, cooldown)
    ensures var sent := t.ch.lineages[root].sent;
            sent != [] ==> t.now - sent[|sent| - 1] > Max(cooldown, RESEND_INTERVAL)
  {
    ChargeIsOnCarrier(t, id, k, root);
    CooledIsSpaced(t, id, cooldown);
  }

  lemma MailPassesTest(t: State, e: Event, k: Key)
    requires MailsOn(t, e, k)
    ensures LiveChallenge(t, e.id) && Cooled(t, e.id, e.cooldown)
  {
  }

  lemma {:induction false} MailsAreCooled(s: State, es: seq<Event>, k: Key, root: nat)
    requires Inv(s) && Carried(s, k, root) && IsLine(s, k, root) && NeverCloses(s, es, k)
    requires s.ch.lineages[root].born + CHALLENGE_TTL > Play(s, es).now
    ensures CooledApart(s.ch.lineages[root].sent, Mails(s, es, k), Cooldowns(s, es, k))
  {
    if es != [] {
      var init, e := es[..|es| - 1], es[|es| - 1];
      var t := Play(s, init);
      ClocksRun(t, e);
      MailsAreCooled(s, init, k, root);
      PlayCounts(s, init, k, root);
      PlayKeepsInv(s, init);
      StepIsCooled(t, e, k, root);
      CooledOn(s.ch.lineages[root].sent, Mails(s, init, k), MailsBy(t, e, k),
               Cooldowns(s, init, k), CooldownsBy(t, e, k));
    }
  }

  lemma StepIsCooled(t: State, e: Event, k: Key, root: nat)
    requires Inv(t) && Carried(t, k, root) && IsLine(t, k, root)
    ensures CooledApart(t.ch.lineages[root].sent, MailsBy(t, e, k), CooldownsBy(t, e, k))
  {
    if MailsOn(t, e, k) {
      MailPassesTest(t, e, k);
      MailIsCooled(t, e.id, e.cooldown, k, root);
    }
  }

  /**
    The budget of a login. From any open challenge on, and until it expires or
    some challenge of the same account, purpose and credentials is completed or
    consumed, at most five guesses and three codes are charged, counting those
    already charged, however often the challenge is replaced; and each code goes
    out more than the cooldown then in force after the one before it, also when
    that one was mailed for a challenge replaced since.
  */
  lemma BudgetOutlivesReplacement(es: seq<Event>, id: nat, more: seq<Event>)
    requires id in Run(es).ch.rows && !Run(es).ch.rows[id].consumed
    requires NeverCloses(Run(es), more, KeyOf(Run(es).ch.rows[id]))
    requires Play(Run(es), more).now < Run(es).ch.rows[id].expires
    ensures var s := Run(es);
      var row := s.ch.rows[id];
      && row.attempts + Guesses(s, more, KeyOf(row)) <= 5
      && row.sends + |Mails(s, more, KeyOf(row))| <= 3
      && row.root in s.ch.lineages
      && CooledApart(s.ch.lineages[row.root].sent, Mails(s, more, KeyOf(row)), Cooldowns(s, more, KeyOf(row)))
      && Spaced(Mails(s, more, KeyOf(row)))
  {
    var s := Run(es);
    var row := s.ch.rows[id];
    RunKeepsInv(es);
    assert RowInv(s, id);
    assert Carries(s, id, KeyOf(row), row.root);
    PlayCounts(s, more, KeyOf(row), row.root);
    MailsAreCooled(s, more, KeyOf(row), row.root);
    PlayKeepsInv(s, more);
    var t := Play(s, more);
    assert LineInv(t, row.root);
    SuffixIsSpaced(s.ch.lineages[row.root].sent, Mails(s, more, KeyOf(row)));
  }

  lemma SuffixIsSpaced(a: seq<int>, b: seq<int>)
    requires Spaced(a + b)
    ensures Spaced(b)
  {
    forall i | 0 < i < |b| ensures b[i] - b[i - 1] > RESEND_INTERVAL {
      assert (a + b)[|a| + i] == b[i] && (a + b)[|a| + i - 1] == b[i - 1];
    }
  }

  /**
    A first factor proved by a link to the mailbox is never paired with a code
    mailed to it: from such a challenge on, and until the lineage ends, no code
    is mailed for the account's challenge and no mailed code completes it.
  */
  lemma LinkIsNotPairedWithMail(es: seq<Event>, id: nat, more: seq<Event>, e: Event)
    requires id in Run(es).ch.rows && !Run(es).ch.rows[id].consumed && Run(es).ch.rows[id].proven
    requires NeverCloses(Run(es), more, KeyOf(Run(es).ch.rows[id]))
    requires Play(Run(es), more).now < Run(es).ch.rows[id].expires
    ensures var s := Run(es);
      var k := KeyOf(s.ch.rows[id]);
      var t := Play(s, more);
      && !MailsOn(t, e, k)
      && (forall x: nat :: HasKey(t, x, k) ==> Step(t, e).1 != LoggedIn(x, ByEmail))
  {
    var s := Run(es);
    var row := s.ch.rows[id];
    var k := KeyOf(row);
    RunKeepsInv(es);
    assert RowInv(s, id);
    assert Carries(s, id, k, row.root);
    PlayCounts(s, more, k, row.root);
    PlayKeepsInv(s, more);
    FlaggedIsNotMailed(Play(s, more), k, row.root, e);
  }

  lemma FlaggedIsNotMailed(t: State, k: Key, root: nat, e: Event)
    requires Inv(t) && Carried(t, k, root) && IsLine(t, k, root) && t.ch.lineages[root].flagged
    ensures !MailsOn(t, e, k)
    ensures forall x: nat :: HasKey(t, x, k) ==> Step(t, e).1 != LoggedIn(x, ByEmail)
  {
    if (e.EComplete2FA? || e.ESendCode?) && LiveChallenge(t, e.id) && HasKey(t, e.id, k) {
      ChargeIsOnCarrier(t, e.id, k, root);
      assert RowInv(t, e.id);
      ProvenIsNotMailed(t, e);
    } else {
      OnlyLoginsLogIn(t, e);
    }
  }

  /** A completed login names the live challenge it completed. */
  lemma OnlyLoginsLogIn(t: State, e: Event)
    ensures Step(t, e).1.LoggedIn? ==> e.EComplete2FA? && Step(t, e).1.challenge == e.id && LiveChallenge(t, e.id)
  {
  }

  /** The method a login reports is the one whose proof was spent. */
  lemma LoginReply(t: State, id: nat, login: ChallengeProof)
    requires LiveChallenge(t, id)
    ensures !Complete2FA(t, id, login).1.Mailed?
    ensures Complete2FA(t, id, login).1.LoggedIn? ==>
              var spent := SpendLoginProof(t, t.ch.rows[id].user, id, login);
              spent.Some? && Complete2FA(t, id, login).1 == LoggedIn(id, spent.value.1)
  {
  }

  lemma ProvenIsNotMailed(t: State, e: Event)
    requires Inv(t) && (e.EComplete2FA? || e.ESendCode?) && LiveChallenge(t, e.id) && t.ch.rows[e.id].proven
    ensures !Step(t, e).1.Mailed?
    ensures forall x: nat :: Step(t, e).1 != LoggedIn(x, ByEmail)
  {
    if e.EComplete2FA? {
      LoginReply(t, e.id, e.login);
      if SpendLoginProof(t, t.ch.rows[e.id].user, e.id, e.login).Some? {
        LoginProofKeepsInv(t, t.ch.rows[e.id].user, e.id, e.login);
      }
    }
  }
}
