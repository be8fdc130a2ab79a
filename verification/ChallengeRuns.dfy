/** What holds of the challenge tables after every run of transactions. */
module ChallengeRuns {
  import opened Wrappers
  import opened TwoFactorFrames
  import opened TwoFactorModel

  /** The credentials the lineage was opened with are no longer the account's. */
  predicate Stale(s: State, line: Lineage) {
    line.user !in s.users || line.epoch < s.users[line.user].epoch
  }

  /** No challenge of the lineage can be used any more. */
  predicate Over(s: State, line: Lineage) {
    line.closed.Some? || line.born + CHALLENGE_TTL <= s.now || Stale(s, line)
  }

  /** Consecutive times lie further apart than the shortest cooldown. */
  predicate Spaced(times: seq<int>) {
    forall i :: 0 < i < |times| ==> times[i] - times[i - 1] > RESEND_INTERVAL
  }

  /** A challenge belongs to its lineage, and an unspent one carries the lineage's whole account. */
  ghost predicate RowInv(s: State, id: nat)
    requires id in s.ch.rows
  {
    var row := s.ch.rows[id];
    && id < s.next && row.user in s.users && row.root in s.ch.lineages
    && var line := s.ch.lineages[row.root];
       && row.user == line.user && row.purpose == line.purpose && row.epoch == line.epoch
       && row.expires == line.born + CHALLENGE_TTL
       && (!row.consumed ==>
             row.attempts == line.guesses && row.sends == |line.sent| && row.proven == line.flagged
               && line.closed.None?)
  }

  ghost predicate HasOpenRow(s: State, root: nat) {
    exists id :: id in s.ch.rows && s.ch.rows[id].root == root && !s.ch.rows[id].consumed
  }

  ghost predicate LineInv(s: State, root: nat)
    requires root in s.ch.lineages
  {
    var line := s.ch.lineages[root];
    && root < s.next && line.user < s.next && line.born <= s.now
    && line.guesses <= MAX_ATTEMPTS && |line.sent| <= MAX_SENDS && Spaced(line.sent)
    && (forall i :: 0 <= i < |line.sent| ==> line.born <= line.sent[i] <= s.now)
    && (line.closed.Some? ==> line.closed.value <= s.now)
    && (line.via.Some? ==> line.closed.Some?)
    && (line.via == Some(ByEmail) ==> !line.flagged)
    && (line.user in s.users ==> line.epoch <= s.users[line.user].epoch)
    && (Over(s, line) || HasOpenRow(s, root))
  }

  /** A mailed code hangs off a challenge of its owner; an unspent one off a challenge no link proved. */
  ghost predicate CodeInv(s: State, c: nat)
    requires c in s.ch.codes
  {
    var code := s.ch.codes[c];
    && c < s.next && code.challenge in s.ch.rows
    && s.ch.rows[code.challenge].user == code.user
    && code.created <= s.now && code.created <= code.expires
    && (!code.consumed ==> !s.ch.rows[code.challenge].proven)
  }

  /** The code behind the latest send of a live challenge is still there to hold back the next one. */
  ghost predicate LastSendKept(s: State, id: nat)
    requires id in s.ch.rows && s.ch.rows[id].root in s.ch.lineages
  {
    var sent := s.ch.lineages[s.ch.rows[id].root].sent;
    !s.ch.rows[id].consumed && s.ch.rows[id].expires > s.now && sent != [] ==>
      exists c :: c in s.ch.codes && s.ch.codes[c].challenge == id && s.ch.codes[c].created == sent[|sent| - 1]
  }

  /** At most one unspent challenge for an account and purpose. */
  ghost predicate OneOpen(s: State) {
    forall a, b ::
      (a in s.ch.rows && b in s.ch.rows && !s.ch.rows[a].consumed && !s.ch.rows[b].consumed
       && s.ch.rows[a].user == s.ch.rows[b].user && s.ch.rows[a].purpose == s.ch.rows[b].purpose) ==> a == b
  }

  predicate SameKey(a: Lineage, b: Lineage) {
    a.user == b.user && a.purpose == b.purpose && a.epoch == b.epoch
  }

  /** Of two lineages with the same account, purpose and epoch, the older had ended when the younger began. */
  ghost predicate InTurn(s: State) {
    forall a, b ::
      a in s.ch.lineages && b in s.ch.lineages && a < b && SameKey(s.ch.lineages[a], s.ch.lineages[b]) ==>
        EndedBy(s.ch.lineages[a], s.ch.lineages[b].born)
  }

  predicate EndedBy(line: Lineage, time: int) {
    (line.closed.Some? && line.closed.value <= time) || line.born + CHALLENGE_TTL <= time
  }

  ghost predicate Inv(s: State) {
    && (forall id :: id in s.ch.rows ==> RowInv(s, id))
    && (forall id :: id in s.ch.rows ==> LastSendKept(s, id))
    && (forall r :: r in s.ch.lineages ==> LineInv(s, r))
    && (forall c :: c in s.ch.codes ==> CodeInv(s, c))
    && (forall u :: u in s.users ==> u < s.next)
    && OneOpen(s)
    && InTurn(s)
  }

  /** Transactions that leave the challenge tables alone; epochs only grow. */
  ghost predicate Frame(s: State, t: State) {
    && t.ch == s.ch && t.now >= s.now && t.next >= s.next
    && (forall u :: u in s.users ==> u in t.users && t.users[u].epoch >= s.users[u].epoch)
    && (forall u :: u in t.users && u !in s.users ==> s.next <= u < t.next)
  }

  lemma FrameKeepsInv(s: State, t: State)
    requires Inv(s) && Frame(s, t)
    ensures Inv(t)
  {
    forall id | id in t.ch.rows ensures RowInv(t, id) && LastSendKept(t, id) {
      assert RowInv(s, id) && LastSendKept(s, id);
    }
    forall r | r in t.ch.lineages ensures LineInv(t, r) {
      assert LineInv(s, r);
      assert HasOpenRow(s, r) ==> HasOpenRow(t, r);
    }
    forall c | c in t.ch.codes ensures CodeInv(t, c) {
      assert CodeInv(s, c);
    }
  }

  /** Two unspent challenges never share a lineage. */
  lemma OthersElsewhere(s: State, a: nat, b: nat)
    requires Inv(s) && a in s.ch.rows && b in s.ch.rows && a != b
    requires !s.ch.rows[a].consumed && !s.ch.rows[b].consumed
    ensures s.ch.rows[a].root != s.ch.rows[b].root
  {
  }

  /** The codes of `s` are all in `t`, for the same challenges and as old, some of them spent since. */
  ghost predicate CodesKept(s: State, t: State) {
    forall c :: c in s.ch.codes ==>
      && c in t.ch.codes
      && t.ch.codes[c].challenge == s.ch.codes[c].challenge && t.ch.codes[c].created == s.ch.codes[c].created
  }

  /** One unspent challenge and the history of its lineage move on together; no other challenge changes. */
  ghost predicate Charged1(s: State, t: State, id: nat, row: Challenge, line: Lineage) {
    && id in s.ch.rows && !s.ch.rows[id].consumed && s.ch.rows[id].root in s.ch.lineages
    && t.ch.rows == s.ch.rows[id := row] && t.ch.lineages == s.ch.lineages[row.root := line]
    && row == s.ch.rows[id].(attempts := row.attempts, sends := row.sends, consumed := row.consumed)
    && line == s.ch.lineages[row.root].(guesses := line.guesses, sent := line.sent, closed := line.closed,
                                        via := line.via)
    && t.now == s.now && t.next >= s.next && t.users == s.users
  }

  lemma ChargeKeepsRow(s: State, t: State, id: nat, row: Challenge, line: Lineage, x: nat)
    requires Charged1(s, t, id, row, line) && CodesKept(s, t)
    requires x in s.ch.rows && x != id && RowInv(s, x) && LastSendKept(s, x)
    requires !s.ch.rows[x].consumed ==> s.ch.rows[x].root != row.root
    ensures RowInv(t, x) && LastSendKept(t, x)
  {
  }

  lemma ChargeKeepsLine(s: State, t: State, id: nat, row: Challenge, line: Lineage, r: nat)
    requires Charged1(s, t, id, row, line)
    requires r in s.ch.lineages && r != row.root && LineInv(s, r)
    ensures LineInv(t, r)
  {
    if x :| x in s.ch.rows && s.ch.rows[x].root == r && !s.ch.rows[x].consumed {
      assert t.ch.rows[x] == s.ch.rows[x];
    }
  }

  lemma ChargeKeepsOrder(s: State, t: State, id: nat, row: Challenge, line: Lineage)
    requires Inv(s) && Charged1(s, t, id, row, line)
    requires line.closed == s.ch.lineages[row.root].closed || s.ch.lineages[row.root].closed.None?
    ensures OneOpen(t) && InTurn(t)
  {
  }

  lemma ChargeKeepsInv(s: State, t: State, id: nat, row: Challenge, line: Lineage)
    requires Inv(s) && Charged1(s, t, id, row, line) && CodesKept(s, t)
    requires RowInv(t, id) && LastSendKept(t, id) && LineInv(t, row.root)
    requires forall c :: c in t.ch.codes ==> CodeInv(t, c)
    ensures Inv(t)
  {
    assert RowInv(s, id);
    forall x | x in t.ch.rows ensures RowInv(t, x) && LastSendKept(t, x) {
      if x != id {
        assert RowInv(s, x) && LastSendKept(s, x);
        if !s.ch.rows[x].consumed {
          OthersElsewhere(s, id, x);
        }
        ChargeKeepsRow(s, t, id, row, line, x);
      }
    }
    forall r | r in t.ch.lineages ensures LineInv(t, r) {
      if r != row.root {
        assert LineInv(s, r);
        ChargeKeepsLine(s, t, id, row, line, r);
      }
    }
    ChargeKeepsOrder(s, t, id, row, line);
  }

  /** Codes that did not move hang off the same rows. */
  lemma SameCodesKeepInv(s: State, t: State, id: nat, row: Challenge, line: Lineage)
    requires Inv(s) && Charged1(s, t, id, row, line) && t.ch.codes == s.ch.codes
    ensures CodesKept(s, t) && forall c :: c in t.ch.codes ==> CodeInv(t, c)
  {
  }

  lemma BumpedRow(s: State, id: nat)
    requires LiveChallenge(s, id) && s.ch.rows[id].attempts < MAX_ATTEMPTS
    requires RowInv(s, id) && LastSendKept(s, id) && LineInv(s, s.ch.rows[id].root)
    ensures var t := BumpAttempt(s, id).0;
            RowInv(t, id) && LastSendKept(t, id) && LineInv(t, t.ch.rows[id].root)
  {
  }

  /** Charging a guess. */
  lemma BumpKeepsInv(s: State, id: nat)
    requires Inv(s)
    ensures Inv(BumpAttempt(s, id).0)
  {
    if LiveChallenge(s, id) && s.ch.rows[id].attempts < MAX_ATTEMPTS {
      var t := BumpAttempt(s, id).0;
      assert RowInv(s, id) && LastSendKept(s, id) && LineInv(s, s.ch.rows[id].root);
      BumpedRow(s, id);
      SameCodesKeepInv(s, t, id, t.ch.rows[id], t.ch.lineages[s.ch.rows[id].root]);
      ChargeKeepsInv(s, t, id, t.ch.rows[id], t.ch.lineages[s.ch.rows[id].root]);
    }
  }

  /** Spending a challenge, whichever way it ended; a mailed code never ends a flagged lineage. */
  lemma SpendKeepsInv(s: State, id: nat, via: Option<Method>)
    requires Inv(s) && id in s.ch.rows && !s.ch.rows[id].consumed
    requires via == Some(ByEmail) ==> !s.ch.rows[id].proven
    ensures Inv(Spend(s, id, via))
  {
    var t := Spend(s, id, via);
    var row := t.ch.rows[id];
    assert RowInv(s, id) && LineInv(s, row.root);
    SameCodesKeepInv(s, t, id, row, t.ch.lineages[row.root]);
    ChargeKeepsInv(s, t, id, row, t.ch.lineages[row.root]);
  }

  /** Codes spent where they are. */
  lemma CodesSpentKeepInv(s: State, t: State)
    requires Inv(s)
    requires t.ch.rows == s.ch.rows && t.ch.lineages == s.ch.lineages && t.ch.codes.Keys == s.ch.codes.Keys
    requires t.now == s.now && t.next == s.next && t.users == s.users
    requires forall c :: c in s.ch.codes ==>
      t.ch.codes[c] == s.ch.codes[c] || t.ch.codes[c] == s.ch.codes[c].(consumed := true)
    ensures Inv(t)
  {
    forall id | id in t.ch.rows ensures RowInv(t, id) && LastSendKept(t, id) {
      assert RowInv(s, id) && LastSendKept(s, id);
    }
    forall r | r in t.ch.lineages ensures LineInv(t, r) {
      assert LineInv(s, r);
      assert HasOpenRow(s, r) ==> HasOpenRow(t, r);
    }
    forall c | c in t.ch.codes ensures CodeInv(t, c) {
      assert CodeInv(s, c);
    }
  }

  /** A cooled challenge was last mailed longer ago than the cooldown asked for, and than the shortest one. */
  lemma CooledIsSpaced(s: State, id: nat, cooldown: nat)
    requires Inv(s) && LiveChallenge(s, id) && Cooled(s, id, cooldown)
    ensures s.ch.rows[id].root in s.ch.lineages
    ensures var sent := s.ch.lineages[s.ch.rows[id].root].sent;
            && (sent != [] ==> s.now - sent[|sent| - 1] > Max(cooldown, RESEND_INTERVAL))
            && Spaced(sent + [s.now])
  {
    assert RowInv(s, id) && LastSendKept(s, id) && LineInv(s, s.ch.rows[id].root);
    CooledAfterLast(s, id, cooldown);
  }

  lemma CooledAfterLast(s: State, id: nat, cooldown: nat)
    requires LiveChallenge(s, id) && Cooled(s, id, cooldown) && RowInv(s, id) && LastSendKept(s, id)
    ensures var sent := s.ch.lineages[s.ch.rows[id].root].sent;
            sent != [] ==> s.now - sent[|sent| - 1] > Max(cooldown, RESEND_INTERVAL)
  {
  }

  lemma MailedRow(s: State, id: nat, digest: nat, ttl: nat, cooldown: nat, enrolled: bool)
    requires SendCode(s, id, digest, ttl, cooldown, enrolled).1.Mailed?
    requires RowInv(s, id) && LineInv(s, s.ch.rows[id].root) && Spaced(s.ch.lineages[s.ch.rows[id].root].sent + [s.now])
    ensures var t := SendCode(s, id, digest, ttl, cooldown, enrolled).0;
            RowInv(t, id) && LastSendKept(t, id) && LineInv(t, t.ch.rows[id].root)
  {
    var t := SendCode(s, id, digest, ttl, cooldown, enrolled).0;
    assert t.ch.rows[id].root == s.ch.rows[id].root && !t.ch.rows[id].consumed;
    assert t.ch.codes[s.next].challenge == id && t.ch.codes[s.next].created == s.now;
  }

  lemma MailedCodes(s: State, id: nat, digest: nat, ttl: nat, cooldown: nat, enrolled: bool)
    requires SendCode(s, id, digest, ttl, cooldown, enrolled).1.Mailed? && RowInv(s, id)
    requires forall c :: c in s.ch.codes ==> CodeInv(s, c)
    ensures var t := SendCode(s, id, digest, ttl, cooldown, enrolled).0;
            CodesKept(s, t) && forall c :: c in t.ch.codes ==> CodeInv(t, c)
  {
  }

  /** Mailing a code. */
  lemma SendKeepsInv(s: State, id: nat, digest: nat, ttl: nat, cooldown: nat, enrolled: bool)
    requires Inv(s)
    ensures Inv(SendCode(s, id, digest, ttl, cooldown, enrolled).0)
  {
    if SendCode(s, id, digest, ttl, cooldown, enrolled).1.Mailed? {
      var t := SendCode(s, id, digest, ttl, cooldown, enrolled).0;
      assert RowInv(s, id) && LineInv(s, s.ch.rows[id].root);
      CooledIsSpaced(s, id, cooldown);
      MailedRow(s, id, digest, ttl, cooldown, enrolled);
      MailedCodes(s, id, digest, ttl, cooldown, enrolled);
      ChargeKeepsInv(s, t, id, t.ch.rows[id], t.ch.lineages[s.ch.rows[id].root]);
    }
  }

  // ---- A lineage opens ----

  /** With nothing live to continue, every lineage of the same account and purpose has ended. */
  lemma NothingLiveMeansOver(s: State, uid: nat, purpose: Purpose, epoch: nat, r: nat)
    requires Inv(s) && LiveUser(s, uid, epoch) && r in s.ch.lineages
    requires forall id :: !IsPrevious(s, id, uid, purpose, epoch)
    requires s.ch.lineages[r].user == uid && s.ch.lineages[r].purpose == purpose
    ensures Over(s, s.ch.lineages[r])
    ensures s.ch.lineages[r].epoch == epoch ==> EndedBy(s.ch.lineages[r], s.now)
  {
    assert LineInv(s, r);
    if id :| id in s.ch.rows && s.ch.rows[id].root == r && !s.ch.rows[id].consumed {
      assert RowInv(s, id);
      assert !IsPrevious(s, id, uid, purpose, epoch);
    }
  }

  lemma FirstKeepsRow(s: State, uid: nat, purpose: Purpose, epoch: nat, proven: bool, x: nat)
    requires LiveUser(s, uid, epoch) && x in s.ch.rows && RowInv(s, x) && LastSendKept(s, x)
    requires s.ch.rows[x].root < s.next
    ensures x < s.next
    ensures var t := FirstChallenge(s, uid, purpose, epoch, proven); RowInv(t, x) && LastSendKept(t, x)
  {
  }

  lemma FirstKeepsLine(s: State, uid: nat, purpose: Purpose, epoch: nat, proven: bool, r: nat)
    requires r in s.ch.lineages && LineInv(s, r)
    requires s.ch.lineages[r].user == uid && s.ch.lineages[r].purpose == purpose ==> Over(s, s.ch.lineages[r])
    requires forall x :: x in s.ch.rows ==> RowInv(s, x)
    ensures LineInv(FirstChallenge(s, uid, purpose, epoch, proven), r)
  {
    var t := FirstChallenge(s, uid, purpose, epoch, proven);
    if !Over(s, s.ch.lineages[r]) {
      var x :| x in s.ch.rows && s.ch.rows[x].root == r && !s.ch.rows[x].consumed;
      assert RowInv(s, x);
      assert t.ch.rows[x] == s.ch.rows[x];
    }
  }

  lemma FirstKeepsLineInv(s: State, uid: nat, purpose: Purpose, epoch: nat, proven: bool, r: nat)
    requires Inv(s) && LiveUser(s, uid, epoch) && forall id :: !IsPrevious(s, id, uid, purpose, epoch)
    requires r in FirstChallenge(s, uid, purpose, epoch, proven).ch.lineages
    ensures LineInv(FirstChallenge(s, uid, purpose, epoch, proven), r)
  {
    var t := FirstChallenge(s, uid, purpose, epoch, proven);
    if r != s.next {
      assert LineInv(s, r);
      if s.ch.lineages[r].user == uid && s.ch.lineages[r].purpose == purpose {
        NothingLiveMeansOver(s, uid, purpose, epoch, r);
      }
      FirstKeepsLine(s, uid, purpose, epoch, proven, r);
    } else {
      assert t.ch.rows[s.next].root == s.next && !t.ch.rows[s.next].consumed;
    }
  }

  lemma FirstKeepsOrder(s: State, uid: nat, purpose: Purpose, epoch: nat, proven: bool)
    requires Inv(s) && LiveUser(s, uid, epoch) && forall id :: !IsPrevious(s, id, uid, purpose, epoch)
    ensures var t := FirstChallenge(s, uid, purpose, epoch, proven); OneOpen(t) && InTurn(t)
  {
    forall r | r in s.ch.lineages
      ensures r < s.next
      ensures (s.ch.lineages[r].user == uid && s.ch.lineages[r].purpose == purpose
               && s.ch.lineages[r].epoch == epoch) ==>
                EndedBy(s.ch.lineages[r], s.now)
    {
      assert LineInv(s, r);
      if s.ch.lineages[r].user == uid && s.ch.lineages[r].purpose == purpose {
        NothingLiveMeansOver(s, uid, purpose, epoch, r);
      }
    }
    NewestIsInTurn(s, uid, purpose, epoch, proven);
  }

  lemma NewestIsInTurn(s: State, uid: nat, purpose: Purpose, epoch: nat, proven: bool)
    requires OneOpen(s) && InTurn(s) && forall r :: r in s.ch.lineages ==> r < s.next
    requires forall r ::
      (r in s.ch.lineages && s.ch.lineages[r].user == uid && s.ch.lineages[r].purpose == purpose
       && s.ch.lineages[r].epoch == epoch) ==> EndedBy(s.ch.lineages[r], s.now)
    ensures var t := FirstChallenge(s, uid, purpose, epoch, proven); OneOpen(t) && InTurn(t)
  {
  }

  lemma FirstKeepsInv(s: State, uid: nat, purpose: Purpose, epoch: nat, proven: bool)
    requires Inv(s) && LiveUser(s, uid, epoch) && forall id :: !IsPrevious(s, id, uid, purpose, epoch)
    ensures Inv(FirstChallenge(s, uid, purpose, epoch, proven))
  {
    var t := FirstChallenge(s, uid, purpose, epoch, proven);
    forall x | x in t.ch.rows ensures RowInv(t, x) && LastSendKept(t, x) {
      FirstKeepsRowInv(s, uid, purpose, epoch, proven, x);
    }
    forall r | r in t.ch.lineages ensures LineInv(t, r) {
      FirstKeepsLineInv(s, uid, purpose, epoch, proven, r);
    }
    forall c | c in t.ch.codes ensures CodeInv(t, c) {
      FirstKeepsCodeInv(s, uid, purpose, epoch, proven, c);
    }
    FirstKeepsOrder(s, uid, purpose, epoch, proven);
  }

  lemma FirstKeepsRowInv(s: State, uid: nat, purpose: Purpose, epoch: nat, proven: bool, x: nat)
    requires Inv(s) && LiveUser(s, uid, epoch) && x in FirstChallenge(s, uid, purpose, epoch, proven).ch.rows
    ensures var t := FirstChallenge(s, uid, purpose, epoch, proven); RowInv(t, x) && LastSendKept(t, x)
  {
    if x != s.next {
      assert RowInv(s, x) && LastSendKept(s, x) && LineInv(s, s.ch.rows[x].root);
      FirstKeepsRow(s, uid, purpose, epoch, proven, x);
    }
  }

  lemma FirstKeepsCodeInv(s: State, uid: nat, purpose: Purpose, epoch: nat, proven: bool, c: nat)
    requires Inv(s) && c in s.ch.codes
    ensures CodeInv(FirstChallenge(s, uid, purpose, epoch, proven), c)
  {
    assert CodeInv(s, c) && RowInv(s, s.ch.codes[c].challenge);
  }

  // ---- A challenge is replaced ----

  /** The rows a replacement leaves open are the ones of other accounts and purposes. */
  lemma NextKeepsOpen(s: State, prev: nat, proven: bool, x: nat)
    requires Inv(s) && prev in s.ch.rows && !s.ch.rows[prev].consumed && x in s.ch.rows
    ensures x < s.next
    ensures var t := NextChallenge(s, prev, proven);
            t.ch.rows[x] == s.ch.rows[x].(consumed := t.ch.rows[x].consumed)
            && (!t.ch.rows[x].consumed ==>
                  t.ch.rows[x] == s.ch.rows[x] && x != prev && s.ch.rows[x].root != s.ch.rows[prev].root)
  {
  }

  lemma NextKeepsRow(s: State, prev: nat, proven: bool, x: nat)
    requires prev in s.ch.rows && x in s.ch.rows && x < s.next && RowInv(s, x)
    requires var t := NextChallenge(s, prev, proven);
             t.ch.rows[x] == s.ch.rows[x].(consumed := t.ch.rows[x].consumed)
             && (!t.ch.rows[x].consumed ==>
                   t.ch.rows[x] == s.ch.rows[x] && x != prev && s.ch.rows[x].root != s.ch.rows[prev].root)
    ensures RowInv(NextChallenge(s, prev, proven), x)
  {
  }

  lemma NextKeepsSend(s: State, prev: nat, proven: bool, x: nat)
    requires prev in s.ch.rows && x in s.ch.rows && x < s.next && RowInv(s, x) && LastSendKept(s, x)
    requires forall c :: c in s.ch.codes ==> c < s.next
    requires var t := NextChallenge(s, prev, proven);
             t.ch.rows[x] == s.ch.rows[x].(consumed := t.ch.rows[x].consumed)
             && (!t.ch.rows[x].consumed ==>
                   t.ch.rows[x] == s.ch.rows[x] && x != prev && s.ch.rows[x].root != s.ch.rows[prev].root)
    ensures LastSendKept(NextChallenge(s, prev, proven), x)
  {
    var t := NextChallenge(s, prev, proven);
    var sent := s.ch.lineages[s.ch.rows[x].root].sent;
    if !t.ch.rows[x].consumed && s.ch.rows[x].expires > s.now && sent != [] {
      var c :| c in s.ch.codes && s.ch.codes[c].challenge == x && s.ch.codes[c].created == sent[|sent| - 1];
      assert t.ch.codes[c] == s.ch.codes[c];
    }
  }

  lemma NextAddsRow(s: State, prev: nat, proven: bool)
    requires prev in s.ch.rows && !s.ch.rows[prev].consumed && RowInv(s, prev) && LastSendKept(s, prev)
    requires forall c :: c in s.ch.codes ==> c < s.next
    ensures var t := NextChallenge(s, prev, proven); RowInv(t, s.next) && LastSendKept(t, s.next)
  {
    var t := NextChallenge(s, prev, proven);
    var sent := s.ch.lineages[s.ch.rows[prev].root].sent;
    if s.ch.rows[prev].expires > s.now && sent != [] {
      var c :| c in s.ch.codes && s.ch.codes[c].challenge == prev && s.ch.codes[c].created == sent[|sent| - 1];
      assert t.ch.codes[c].challenge == s.next;
    }
  }

  lemma NextKeepsLine(s: State, prev: nat, proven: bool, r: nat)
    requires prev in s.ch.rows && RowInv(s, prev) && r in s.ch.lineages && LineInv(s, r)
    requires !s.ch.rows[prev].consumed
    requires r != s.ch.rows[prev].root && HasOpenRow(s, r) ==> HasOpenRow(NextChallenge(s, prev, proven), r)
    ensures LineInv(NextChallenge(s, prev, proven), r)
  {
    var t := NextChallenge(s, prev, proven);
    if r == s.ch.rows[prev].root {
      assert t.ch.rows[s.next].root == r && !t.ch.rows[s.next].consumed;
    }
  }

  lemma NextKeepsHope(s: State, prev: nat, proven: bool, r: nat)
    requires Inv(s) && prev in s.ch.rows && !s.ch.rows[prev].consumed
    requires r in s.ch.lineages && r != s.ch.rows[prev].root && HasOpenRow(s, r)
    ensures HasOpenRow(NextChallenge(s, prev, proven), r)
  {
    var t := NextChallenge(s, prev, proven);
    var x :| x in s.ch.rows && s.ch.rows[x].root == r && !s.ch.rows[x].consumed;
    NextKeepsOpen(s, prev, proven, x);
    assert s.ch.rows[x].user == s.ch.rows[prev].user ==> s.ch.rows[x].purpose != s.ch.rows[prev].purpose;
    assert t.ch.rows[x] == s.ch.rows[x];
  }

  lemma NextKeepsCode(s: State, prev: nat, proven: bool, c: nat)
    requires prev in s.ch.rows && RowInv(s, prev) && c in s.ch.codes && CodeInv(s, c)
    requires RowInv(s, s.ch.codes[c].challenge)
    ensures CodeInv(NextChallenge(s, prev, proven), c)
  {
  }

  lemma NextKeepsOrder(s: State, prev: nat, proven: bool)
    requires OneOpen(s) && InTurn(s) && prev in s.ch.rows && !s.ch.rows[prev].consumed && s.next !in s.ch.rows
    ensures var t := NextChallenge(s, prev, proven); OneOpen(t) && InTurn(t)
  {
  }

  lemma NextKeepsInv(s: State, prev: nat, proven: bool)
    requires Inv(s) && prev in s.ch.rows && !s.ch.rows[prev].consumed
    requires s.ch.rows[prev].expires > s.now && LiveUser(s, s.ch.rows[prev].user, s.ch.rows[prev].epoch)
    ensures Inv(NextChallenge(s, prev, proven))
  {
    var t := NextChallenge(s, prev, proven);
    assert RowInv(s, prev) && LastSendKept(s, prev);
    forall c | c in s.ch.codes ensures c < s.next {
      assert CodeInv(s, c);
    }
    forall x | x in t.ch.rows ensures RowInv(t, x) && LastSendKept(t, x) {
      if x == s.next {
        NextAddsRow(s, prev, proven);
      } else {
        assert RowInv(s, x) && LastSendKept(s, x);
        NextKeepsOpen(s, prev, proven, x);
        NextKeepsRow(s, prev, proven, x);
        NextKeepsSend(s, prev, proven, x);
      }
    }
    forall r | r in t.ch.lineages ensures LineInv(t, r) {
      assert LineInv(s, r);
      if r != s.ch.rows[prev].root && HasOpenRow(s, r) {
        NextKeepsHope(s, prev, proven, r);
      }
      NextKeepsLine(s, prev, proven, r);
    }
    forall c | c in t.ch.codes ensures CodeInv(t, c) {
      assert CodeInv(s, c) && RowInv(s, s.ch.codes[c].challenge);
      NextKeepsCode(s, prev, proven, c);
    }
    assert s.next in s.ch.rows ==> RowInv(s, s.next);
    NextKeepsOrder(s, prev, proven);
  }

  lemma CreateKeepsInv(s: State, uid: nat, purpose: Purpose, epoch: nat, proven: bool)
    requires Inv(s)
    ensures Inv(CreateChallenge(s, uid, purpose, epoch, proven).0)
  {
    if LiveUser(s, uid, epoch) {
      if prev :| IsPrevious(s, prev, uid, purpose, epoch)
                 && CreateChallenge(s, uid, purpose, epoch, proven).0 == NextChallenge(s, prev, proven) {
        NextKeepsInv(s, prev, proven);
      } else {
        FirstKeepsInv(s, uid, purpose, epoch, proven);
      }
    }
  }

  // ---- Rows disappear ----

  /** Whatever is deleted, a challenge goes with its lineage over, and a code goes with or after its use. */
  lemma DeletionKeepsInv(s: State, t: State)
    requires Inv(s) && t.now == s.now && t.next == s.next && t.ch.lineages == s.ch.lineages
    requires forall u :: u in t.users ==> u in s.users && t.users[u] == s.users[u]
    requires forall x :: x in t.ch.rows ==>
               x in s.ch.rows && t.ch.rows[x] == s.ch.rows[x] && t.ch.rows[x].user in t.users
    requires forall x :: x in s.ch.rows && x !in t.ch.rows
               ==> s.ch.rows[x].user !in t.users || s.ch.rows[x].expires <= s.now
    requires forall c :: c in t.ch.codes ==> c in s.ch.codes && t.ch.codes[c] == s.ch.codes[c]
                                             && t.ch.codes[c].challenge in t.ch.rows
    requires forall c :: c in s.ch.codes && c !in t.ch.codes ==>
               s.ch.codes[c].challenge !in t.ch.rows || s.ch.codes[c].created + CHALLENGE_TTL <= s.now
    ensures Inv(t)
  {
    forall x | x in t.ch.rows ensures RowInv(t, x) && LastSendKept(t, x) {
      assert RowInv(s, x) && LastSendKept(s, x) && LineInv(s, s.ch.rows[x].root);
      DeletionKeepsSend(s, t, x);
    }
    forall r | r in t.ch.lineages ensures LineInv(t, r) {
      assert LineInv(s, r);
      DeletionKeepsLine(s, t, r);
    }
    forall c | c in t.ch.codes ensures CodeInv(t, c) {
      assert CodeInv(s, c);
    }
  }

  lemma DeletionKeepsLine(s: State, t: State, r: nat)
    requires t.now == s.now && t.next == s.next && t.ch.lineages == s.ch.lineages
    requires r in s.ch.lineages && LineInv(s, r)
    requires forall x :: x in s.ch.rows ==> RowInv(s, x)
    requires forall u :: u in t.users ==> u in s.users && t.users[u] == s.users[u]
    requires forall x :: x in s.ch.rows ==>
               (x in t.ch.rows && t.ch.rows[x] == s.ch.rows[x])
               || s.ch.rows[x].user !in t.users || s.ch.rows[x].expires <= s.now
    ensures LineInv(t, r)
  {
  }

  lemma DeletionKeepsSend(s: State, t: State, x: nat)
    requires t.now == s.now && t.next == s.next && t.ch.lineages == s.ch.lineages
    requires x in s.ch.rows && RowInv(s, x) && LastSendKept(s, x) && LineInv(s, s.ch.rows[x].root)
    requires x in t.ch.rows && x in s.ch.rows && t.ch.rows[x] == s.ch.rows[x] && t.ch.rows[x].user in t.users
    requires forall c :: c in t.ch.codes ==> c in s.ch.codes && t.ch.codes[c] == s.ch.codes[c]
    requires forall c :: c in s.ch.codes && c !in t.ch.codes ==>
               s.ch.codes[c].challenge !in t.ch.rows || s.ch.codes[c].created + CHALLENGE_TTL <= s.now
    ensures RowInv(t, x) && LastSendKept(t, x)
  {
  }

  lemma SweepKeepsInv(s: State, days: nat)
    requires Inv(s)
    ensures Inv(SweepTwoFactor(s, days))
  {
    var t := SweepTwoFactor(s, days);
    forall x | x in s.ch.rows ensures s.ch.rows[x].user in s.users {
      assert RowInv(s, x);
    }
    forall c | c in s.ch.codes && c !in t.ch.codes
      ensures s.ch.codes[c].challenge !in t.ch.rows || s.ch.codes[c].created + CHALLENGE_TTL <= s.now
    {
      assert CodeInv(s, c);
    }
    DeletionKeepsInv(s, t);
  }

  lemma DropKeepsInv(s: State, uid: nat)
    requires Inv(s)
    ensures Inv(DropUser(s, uid))
  {
    forall x | x in s.ch.rows ensures s.ch.rows[x].user in s.users {
      assert RowInv(s, x);
    }
    forall c | c in s.ch.codes
      ensures s.ch.codes[c].challenge in s.ch.rows && s.ch.rows[s.ch.codes[c].challenge].user == s.ch.codes[c].user
    {
      assert CodeInv(s, c);
    }
    DeletionKeepsInv(s, DropUser(s, uid));
  }

  // ---- Proofs are spent ----

  /** A mailed code hangs off a challenge no link proved. */
  lemma MailedCodeIsUnproven(s: State, uid: nat, id: nat, digest: nat)
    requires (forall c :: c in s.ch.codes ==> CodeInv(s, c)) && HasCode(s, uid, id, digest) && id in s.ch.rows
    ensures !s.ch.rows[id].proven
  {
    var c :| c in s.ch.codes && CodeMatches(s, c, uid, id, digest);
    assert CodeInv(s, c);
  }

  lemma SpendCodeKeepsInv(s: State, uid: nat, id: nat, digest: nat)
    requires Inv(s)
    ensures Inv(SpendCode(s, uid, id, digest))
  {
    CodesSpentKeepInv(s, SpendCode(s, uid, id, digest));
  }

  /** Whichever proof completes a login, a mailed code does so only for a challenge no link proved. */
  lemma LoginProofKeepsInv(s: State, uid: nat, id: nat, proof: ChallengeProof)
    requires Inv(s) && id in s.ch.rows && SpendLoginProof(s, uid, id, proof).Some?
    ensures var spent := SpendLoginProof(s, uid, id, proof).value;
            Inv(spent.0) && spent.0.ch.rows == s.ch.rows && (spent.1 == ByEmail ==> !s.ch.rows[id].proven)
  {
    var spent := SpendLoginProof(s, uid, id, proof).value;
    LoginProofIs(s, uid, id, proof);
    if spent.1 == ByEmail {
      MailedCodeIsUnproven(s, uid, id, proof.email.value);
      SpendCodeKeepsInv(s, uid, id, proof.email.value);
    } else {
      FrameKeepsInv(s, spent.0);
    }
  }

  /** A mailed code is spent among the codes, any other proof among the factors. */
  lemma LoginProofIs(s: State, uid: nat, id: nat, proof: ChallengeProof)
    requires SpendLoginProof(s, uid, id, proof).Some?
    ensures var spent := SpendLoginProof(s, uid, id, proof).value;
            if spent.1 == ByEmail
            then && proof.email.Some? && HasCode(s, uid, id, proof.email.value)
                 && spent.0 == SpendCode(s, uid, id, proof.email.value)
            else spent.0 == s.(fa := spent.0.fa)
  {
  }

  lemma CompleteKeepsInv(s: State, id: nat, proof: ChallengeProof)
    requires Inv(s)
    ensures Inv(Complete2FA(s, id, proof).0)
  {
    if Complete2FA(s, id, proof).1.LoggedIn? {
      LoginProofKeepsInv(s, s.ch.rows[id].user, id, proof);
      var spent := SpendLoginProof(s, s.ch.rows[id].user, id, proof).value;
      SpendKeepsInv(spent.0, id, Some(spent.1));
      FrameKeepsInv(Spend(spent.0, id, Some(spent.1)), Complete2FA(s, id, proof).0);
    }
  }

  /** An enrollment changes the factors, then perhaps spends the challenge that let it in. */
  lemma FinishKeepsInv(s: State, t: State, uid: nat, epoch: nat, path: Enrolling)
    requires Inv(s) && Frame(s, t) && FinishPreAuth(t, uid, epoch, path).Some?
    ensures Inv(FinishPreAuth(t, uid, epoch, path).value)
  {
    FrameKeepsInv(s, t);
    if path.PreAuth? {
      SpendKeepsInv(t, path.challenge, None);
      FrameKeepsInv(Spend(t, path.challenge, None), FinishPreAuth(t, uid, epoch, path).value);
    }
  }

  lemma CompleteTotpKeepsInv(s: State, uid: nat, epoch: nat, seed: nat, counter: int, digests: seq<nat>,
                             path: Enrolling, ok: bool)
    requires Inv(s)
    ensures Inv(CompleteTotp(s, uid, epoch, seed, counter, digests, path, ok).0)
  {
    if !CompleteTotp(s, uid, epoch, seed, counter, digests, path, ok).1.Failed? {
      var fa := ConfirmTotp(s.fa, uid, seed, epoch, counter);
      FinishKeepsInv(s, ReplaceRecovery(s.(fa := fa), uid, digests), uid, epoch, path);
    }
  }

  lemma CompleteEmailKeepsInv(s: State, uid: nat, epoch: nat, digest: nat, digests: seq<nat>, path: Enrolling, ok: bool)
    requires Inv(s)
    ensures Inv(CompleteEmail(s, uid, epoch, digest, digests, path, ok).0)
  {
    if !CompleteEmail(s, uid, epoch, digest, digests, path, ok).1.Failed? {
      var fa := SpendFactorCode(s, uid, false, digest);
      FinishKeepsInv(s, ReplaceRecovery(s.(fa := ConfirmEmail(fa, uid, epoch)), uid, digests),
                     uid, epoch, path);
    }
  }

  lemma ConvertKeepsInv(s: State, id: nat, ok: bool)
    requires Inv(s)
    ensures Inv(Convert(s, id, ok).0)
  {
    if Convert(s, id, ok).1.Done? {
      SpendKeepsInv(s, id, None);
      FrameKeepsInv(Spend(s, id, None), Convert(s, id, ok).0);
    }
  }

  // ---- Every step ----

  lemma OtherStepsAreFrames(s: State, e: Event)
    requires !TouchesChallenges(e)
    requires forall u :: u in s.users ==> u < s.next
    ensures Frame(s, Step(s, e).0)
  {
    ChallengesStay(s, e);
    ClocksRun(s, e);
    StepEvolvesUsers(s, e);
  }

  lemma LoginStepKeepsInv(s: State, e: Event)
    requires Inv(s)
    requires e.ECreateChallenge? || e.EBumpAttempt? || e.EConsumeChallenge? || e.ESendCode? || e.EComplete2FA?
    ensures Inv(Step(s, e).0)
  {
    if e.ECreateChallenge? {
      CreateKeepsInv(s, e.uid, e.purpose, e.epoch, e.proven);
    } else if e.EBumpAttempt? {
      BumpKeepsInv(s, e.id);
    } else if e.ESendCode? {
      SendKeepsInv(s, e.id, e.digest, e.ttl, e.cooldown, e.enrolled);
    } else if e.EComplete2FA? {
      CompleteKeepsInv(s, e.id, e.login);
    } else if LiveChallenge(s, e.id) {
      SpendKeepsInv(s, e.id, None);
    }
  }

  lemma EnrollmentKeepsInv(s: State, e: Event)
    requires Inv(s) && (e.ECompleteTotp? || e.ECompleteEmail?)
    ensures Inv(Step(s, e).0)
  {
    if e.ECompleteTotp? {
      CompleteTotpKeepsInv(s, e.uid, e.epoch, e.seed, e.counter, e.digests, e.path, e.ok);
    } else {
      CompleteEmailKeepsInv(s, e.uid, e.epoch, e.digest, e.digests, e.path, e.ok);
    }
  }

  lemma ConvertStepKeepsInv(s: State, e: Event)
    requires Inv(s) && e.EConvert?
    ensures Inv(Step(s, e).0)
  {
    ConvertKeepsInv(s, e.id, e.ok);
  }

  lemma DropStepKeepsInv(s: State, e: Event)
    requires Inv(s) && e.EDeleteUser?
    ensures Inv(Step(s, e).0)
  {
    DropKeepsInv(s, e.uid);
  }

  lemma SweepStepKeepsInv(s: State, e: Event)
    requires Inv(s) && e.ESweep?
    ensures Inv(Step(s, e).0)
  {
    SweepKeepsInv(s, e.days);
  }

  lemma StepKeepsInv(s: State, e: Event)
    requires Inv(s)
    ensures Inv(Step(s, e).0)
  {
    if !TouchesChallenges(e) {
      OtherStepsAreFrames(s, e);
      FrameKeepsInv(s, Step(s, e).0);
    } else if e.ECompleteTotp? || e.ECompleteEmail? {
      EnrollmentKeepsInv(s, e);
    } else if e.EConvert? {
      ConvertStepKeepsInv(s, e);
    } else if e.EDeleteUser? {
      DropStepKeepsInv(s, e);
    } else if e.ESweep? {
      SweepStepKeepsInv(s, e);
    } else {
      LoginStepKeepsInv(s, e);
    }
  }

  lemma {:induction false} PlayKeepsInv(s: State, es: seq<Event>)
    requires Inv(s)
    ensures Inv(Play(s, es))
  {
    if es != [] {
      PlayKeepsInv(s, es[..|es| - 1]);
      StepKeepsInv(Play(s, es[..|es| - 1]), es[|es| - 1]);
    }
  }

  /**
    Every reachable state: one open challenge per account and purpose, counters and
    codes in step with the lineages.
  */
  lemma RunKeepsInv(es: seq<Event>)
    ensures Inv(Run(es))
  {
    PlayKeepsInv(Init(), es);
  }
}
