/** Free names for restored copies of tags. */
module TagNames {
  import opened Sets
  import opened Wrappers

  const MAX_UNIQUE_ATTEMPTS := 1000
  const MAX_MATCHES := 1000000

  datatype Error = TooManyCollisions | Exhausted(base: string)

  // ---- Names and their suffixes ----

  function Decimal(n: nat): (s: string)
    ensures |s| > 0 && AllDigits(s)
  {
    if n < 10 then [Digit(n)] else Decimal(n / 10) + [Digit(n % 10)]
  }

  function Digit(d: nat): (c: char)
    requires d < 10
    ensures '0' <= c <= '9'
  {
    '0' + d as char
  }

  predicate AllDigits(s: string) {
    forall i :: 0 <= i < |s| ==> '0' <= s[i] <= '9'
  }

  function Suffix(k: nat): (s: string) {
    " (" + Decimal(k) + ")"
  }

  /** The name tried at an attempt: the base itself, then the base with a number. */
  function Candidate(base: string, attempt: nat): (name: string) {
    if attempt <= 1 then base else base + Suffix(attempt)
  }

  /** A space and a number in parentheses, and nothing else. */
  predicate IsSuffix(s: string) {
    |s| > 3 && s[0] == ' ' && s[1] == '(' && s[|s| - 1] == ')' && AllDigits(s[2..|s| - 1])
  }

  /** The name without its numbered suffix, found from the left. */
  function StripFrom(name: string, k: nat): (base: string)
    requires k <= |name|
    decreases |name| - k
  {
    if k == |name| then name
    else if IsSuffix(name[k..]) then name[..k]
    else StripFrom(name, k + 1)
  }

  function Strip(name: string): (base: string) {
    StripFrom(name, 0)
  }

  lemma SuffixIsSuffix(k: nat)
    ensures IsSuffix(Suffix(k))
  {
  }

  /** No suffix starts before the last one: it would have a space among its digits. */
  lemma NoEarlierSuffix(base: string, k: nat, at: nat)
    requires at < |base|
    ensures !IsSuffix((base + Suffix(k))[at..])
  {
    var name := base + Suffix(k);
    var tail := name[at..];
    var space := |base| - at;
    assert tail[space] == ' ' && space >= 1;
    assert space >= 2 ==> tail[2..|tail| - 1][space - 2] == ' ';
  }

  lemma {:induction false} StripFindsBase(base: string, k: nat, at: nat)
    requires at <= |base|
    ensures StripFrom(base + Suffix(k), at) == base
    decreases |base| - at
  {
    var name := base + Suffix(k);
    if at == |base| {
      assert name[at..] == Suffix(k);
      SuffixIsSuffix(k);
      assert name[..at] == base;
    } else {
      NoEarlierSuffix(base, k, at);
      StripFindsBase(base, k, at + 1);
    }
  }

  /** Numbering is undone by stripping, whatever the base ends with. */
  lemma StripUndoesNumbering(base: string, k: nat)
    ensures Strip(base + Suffix(k)) == base
  {
    StripFindsBase(base, k, 0);
  }

  function Value(s: string): (n: nat)
    requires AllDigits(s)
  {
    if s == [] then 0 else Value(s[..|s| - 1]) * 10 + (s[|s| - 1] - '0') as nat
  }

  lemma {:induction false} ValueOfDecimal(n: nat)
    ensures Value(Decimal(n)) == n
  {
    var s := Decimal(n);
    if n < 10 {
      assert s[..0] == [];
    } else {
      assert s[..|s| - 1] == Decimal(n / 10);
      ValueOfDecimal(n / 10);
    }
  }

  /** Different attempts try different names. */
  lemma CandidatesDiffer(base: string, a: nat, b: nat)
    requires 1 <= a < b
    ensures Candidate(base, a) != Candidate(base, b)
  {
    if a > 1 {
      ValueOfDecimal(a);
      ValueOfDecimal(b);
      var s, t := Suffix(a), Suffix(b);
      assert (base + s)[|base|..] == s && (base + t)[|base|..] == t;
      assert s[2..|s| - 1] == Decimal(a) && t[2..|t| - 1] == Decimal(b);
    }
  }

  /** The first name tried is the base; the others add a space and the attempt's number in parentheses. */
  lemma CandidatesAreNumbered(base: string, attempt: nat) returns (digits: string)
    requires attempt >= 1
    ensures Candidate(base, attempt) == if attempt == 1 then base else base + " (" + digits + ")"
    ensures digits != "" && (forall i :: 0 <= i < |digits| ==> '0' <= digits[i] <= '9') && Value(digits) == attempt
    ensures digits[0] != '0'
  {
    digits := Decimal(attempt);
    ValueOfDecimal(attempt);
    NoLeadingZero(attempt);
  }

  lemma {:induction false} NoLeadingZero(n: nat)
    requires n >= 1
    ensures Decimal(n)[0] != '0'
  {
    if n >= 10 {
      NoLeadingZero(n / 10);
    }
  }

  // ---- The allocation ----

  /** The first attempt from `attempt` on whose name is free. */
  function FirstFree(used: set<string>, base: string, attempt: nat): (r: Option<nat>)
    decreases MAX_UNIQUE_ATTEMPTS - attempt
  {
    if attempt >= MAX_UNIQUE_ATTEMPTS then None
    else if Candidate(base, attempt) !in used then Some(attempt)
    else FirstFree(used, base, attempt + 1)
  }

  /** Names for the bases in order; an empty name counts as no name at all. */
  function Allocate(used: set<string>, bases: seq<string>): (r: Result<seq<string>, Error>) {
    if bases == [] then Ok([])
    else
      var init := Allocate(used, bases[..|bases| - 1]);
      if init.Err? then init
      else
        var base := bases[|bases| - 1];
        var k := FirstFree(used + Names(init.value), base, 1);
        if k.None? || Candidate(base, k.value) == "" then Err(Exhausted(base))
        else Ok(init.value + [Candidate(base, k.value)])
  }

  function Names(names: seq<string>): (r: set<string>) {
    set n | n in names
  }

  /** The live names the database is asked for: a base, or a base with a number. */
  function Relevant(live: set<string>, bases: seq<string>): (r: set<string>) {
    set n | n in live && (n in bases || Strip(n) in bases)
  }

  /** A live name that could be tried is always among those asked for. */
  lemma CandidatesAreRelevant(live: set<string>, bases: seq<string>, base: string, attempt: nat)
    requires base in bases
    ensures Candidate(base, attempt) in live <==> Candidate(base, attempt) in Relevant(live, bases)
  {
    if attempt > 1 {
      StripUndoesNumbering(base, attempt);
    }
  }

  lemma {:induction false} SameFirstFree(live: set<string>, bases: seq<string>, extra: set<string>, base: string,
                                         attempt: nat)
    requires base in bases
    ensures FirstFree(Relevant(live, bases) + extra, base, attempt) == FirstFree(live + extra, base, attempt)
    decreases MAX_UNIQUE_ATTEMPTS - attempt
  {
    if attempt < MAX_UNIQUE_ATTEMPTS {
      CandidatesAreRelevant(live, bases, base, attempt);
      SameFirstFree(live, bases, extra, base, attempt + 1);
    }
  }

  /** Knowing the names asked for is as good as knowing every name of the owner. */
  lemma {:induction false} PreloadIsEnough(live: set<string>, bases: seq<string>, n: nat)
    requires n <= |bases|
    ensures Allocate(Relevant(live, bases), bases[..n]) == Allocate(live, bases[..n])
  {
    if n > 0 {
      assert bases[..n][..n - 1] == bases[..n - 1];
      PreloadIsEnough(live, bases, n - 1);
      var init := Allocate(live, bases[..n - 1]);
      if init.Ok? {
        SameFirstFree(live, bases, Names(init.value), bases[n - 1], 1);
      }
    }
  }

  lemma {:induction false} FirstFreeIsFirst(used: set<string>, base: string, attempt: nat)
    ensures var k := FirstFree(used, base, attempt);
            && (k.Some? ==> attempt <= k.value < MAX_UNIQUE_ATTEMPTS && Candidate(base, k.value) !in used)
            && forall j :: attempt <= j < (if k.Some? then k.value else MAX_UNIQUE_ATTEMPTS) ==>
                 Candidate(base, j) in used
    decreases MAX_UNIQUE_ATTEMPTS - attempt
  {
    if attempt < MAX_UNIQUE_ATTEMPTS && Candidate(base, attempt) in used {
      FirstFreeIsFirst(used, base, attempt + 1);
      var k := FirstFree(used, base, attempt);
      assert k == FirstFree(used, base, attempt + 1);
      forall j | attempt <= j < (if k.Some? then k.value else MAX_UNIQUE_ATTEMPTS) ensures Candidate(base, j) in used {
        if j != attempt {
          assert attempt + 1 <= j;
        }
      }
    }
  }

  /** A base finds a name exactly when one of the first 999 is free. */
  lemma FindsNameExactly(used: set<string>, base: string)
    ensures FirstFree(used, base, 1).Some? <==> exists k: nat :: 1 <= k < 1000 && Candidate(base, k) !in used
  {
    FirstFreeIsFirst(used, base, 1);
  }

  predicate Distinct(names: seq<string>) {
    forall i, j :: 0 <= i < j < |names| ==> names[i] != names[j]
  }

  /** The name is the base or a numbering of it, and every earlier one was taken. */
  ghost predicate IsFirstFreeName(name: string, base: string, used: set<string>) {
    exists k: nat ::
      && 1 <= k < MAX_UNIQUE_ATTEMPTS && name == Candidate(base, k)
      && forall j :: 1 <= j < k ==> Candidate(base, j) in used
  }

  /** The names given so far are new to the owner, pairwise different, and each the first free one of its base. */
  ghost predicate AreFree(names: seq<string>, bases: seq<string>, live: set<string>) {
    && |names| == |bases| && Distinct(names)
    && (forall i :: 0 <= i < |names| ==> names[i] !in live && names[i] != "")
    && (forall i :: 0 <= i < |names| ==> IsFirstFreeName(names[i], bases[i], live + Names(names[..i])))
  }

  lemma OneMoreIsFree(names: seq<string>, bases: seq<string>, live: set<string>, base: string, k: nat)
    requires AreFree(names, bases, live) && FirstFree(live + Names(names), base, 1) == Some(k)
             && Candidate(base, k) != ""
    ensures AreFree(names + [Candidate(base, k)], bases + [base], live)
  {
    var more := names + [Candidate(base, k)];
    FirstFreeIsFirst(live + Names(names), base, 1);
    forall i | 0 <= i < |names| ensures more[i] == names[i] && more[..i] == names[..i] && more[i] in Names(names) {
    }
    assert more[..|names|] == names;
    assert IsFirstFreeName(more[|names|], base, live + Names(names));
  }

  lemma {:induction false} AllocatedNamesAreFree(live: set<string>, bases: seq<string>)
    requires Allocate(live, bases).Ok?
    ensures AreFree(Allocate(live, bases).value, bases, live)
  {
    if bases != [] {
      var n := |bases| - 1;
      AllocatedNamesAreFree(live, bases[..n]);
      var init := Allocate(live, bases[..n]).value;
      OneMoreIsFree(init, bases[..n], live, bases[n], FirstFree(live + Names(init), bases[n], 1).value);
      assert bases == bases[..n] + [bases[n]];
    }
  }

  /** The names some attempts try. */
  function Tried(base: string, n: nat): (r: set<string>) {
    set k: nat | 1 <= k <= n :: Candidate(base, k)
  }

  lemma {:induction false} TriedCount(base: string, n: nat)
    ensures |Tried(base, n)| == n
  {
    if n == 0 {
      assert Tried(base, 0) == {};
    } else {
      TriedCount(base, n - 1);
      forall k: nat | 1 <= k < n ensures Candidate(base, k) != Candidate(base, n) {
        CandidatesDiffer(base, k, n);
      }
      assert Tried(base, n) == Tried(base, n - 1) + {Candidate(base, n)};
    }
  }

  /** With fewer than 999 names taken some attempt succeeds. */
  lemma SomeAttemptSucceeds(used: set<string>, base: string)
    requires |used| < MAX_UNIQUE_ATTEMPTS - 1
    ensures FirstFree(used, base, 1).Some?
  {
    FirstFreeIsFirst(used, base, 1);
    if FirstFree(used, base, 1).None? {
      TriedCount(base, MAX_UNIQUE_ATTEMPTS - 1);
      SubsetIsSmaller(Tried(base, MAX_UNIQUE_ATTEMPTS - 1), used);
      assert false;
    }
  }

  /** Non-empty bases are all given names while the names concerned and the bases together stay below 999. */
  lemma {:induction false} AllocationSucceeds(used: set<string>, bases: seq<string>)
    requires forall i :: 0 <= i < |bases| ==> bases[i] != ""
    requires |used| + |bases| < MAX_UNIQUE_ATTEMPTS
    ensures Allocate(used, bases).Ok?
  {
    if bases != [] {
      var n := |bases| - 1;
      AllocationSucceeds(used, bases[..n]);
      var init := Allocate(used, bases[..n]).value;
      AllocatedNamesAreFree(used, bases[..n]);
      NamesCount(init);
      assert |used + Names(init)| <= |used| + |Names(init)|;
      SomeAttemptSucceeds(used + Names(init), bases[n]);
    }
  }

  lemma {:induction false} NamesCount(names: seq<string>)
    ensures |Names(names)| <= |names|
  {
    if names != [] {
      var init := names[..|names| - 1];
      NamesCount(init);
      assert names == init + [names[|names| - 1]];
      assert Names(names) == Names(init) + {names[|names| - 1]};
    }
  }

  /** An empty base that is free gets no name, and the whole restore is refused. */
  lemma EmptyBaseIsRefused(used: set<string>, bases: seq<string>)
    requires Allocate(used, bases).Ok? && "" !in used
    ensures Allocate(used, bases + [""]) == Err(Exhausted(""))
  {
    assert (bases + [""])[..|bases|] == bases;
    AllocatedNamesAreFree(used, bases);
    assert Candidate("", 1) == "";
  }

  /**
    What the restore does: read the names concerned, then give each copy the
    first free one. `taken` is the database's answer, in any order.
  */
  method AllocateDuplicateTagNames(ghost live: set<string>, bases: seq<string>, taken: seq<string>)
    returns (r: Result<seq<string>, Error>)
    requires Names(taken) == Relevant(live, bases) && Distinct(taken)
    ensures r == if |taken| > 1000000 then Err(TooManyCollisions) else Allocate(live, bases)
  {
    if |taken| > MAX_MATCHES {
      return Err(TooManyCollisions);
    }
    PreloadIsEnough(live, bases, |bases|);
    assert bases[..|bases|] == bases;
    ghost var known := Relevant(live, bases);
    var used := set n | n in taken;
    assert used == Names(taken);
    var names: seq<string> := [];
    for i := 0 to |bases|
      invariant Allocate(known, bases[..i]) == Ok(names) && used == known + Names(names)
    {
      NextAllocation(known, bases, i, names);
      var attempt := FindFree(used, bases[i]);
      if attempt.None? || Candidate(bases[i], attempt.value) == "" {
        FailureIsFinal(known, bases, i + 1);
        return Err(Exhausted(bases[i]));
      }
      NamesOfNext(names, Candidate(bases[i], attempt.value));
      used := used + {Candidate(bases[i], attempt.value)};
      names := names + [Candidate(bases[i], attempt.value)];
    }
    r := Ok(names);
  }

  /** The inner loop: attempts from 1 below the cap. */
  method FindFree(used: set<string>, base: string) returns (found: Option<nat>)
    ensures found == FirstFree(used, base, 1)
  {
    var attempt := 1;
    while attempt < MAX_UNIQUE_ATTEMPTS && Candidate(base, attempt) in used
      invariant 1 <= attempt <= MAX_UNIQUE_ATTEMPTS
      invariant FirstFree(used, base, 1) == FirstFree(used, base, attempt)
    {
      attempt := attempt + 1;
    }
    found := if attempt < MAX_UNIQUE_ATTEMPTS then Some(attempt) else None;
  }

  lemma NextAllocation(used: set<string>, bases: seq<string>, i: nat, names: seq<string>)
    requires i < |bases| && Allocate(used, bases[..i]) == Ok(names)
    ensures var k := FirstFree(used + Names(names), bases[i], 1);
            Allocate(used, bases[..i + 1])
              == if k.None? || Candidate(bases[i], k.value) == "" then Err(Exhausted(bases[i]))
                 else Ok(names + [Candidate(bases[i], k.value)])
  {
    assert bases[..i + 1][..i] == bases[..i];
  }

  lemma NamesOfNext(names: seq<string>, name: string)
    ensures Names(names + [name]) == Names(names) + {name}
  {
  }

  /** One base without a name fails them all, with its own error. */
  lemma {:induction false} FailureIsFinal(used: set<string>, bases: seq<string>, n: nat)
    requires n <= |bases| && Allocate(used, bases[..n]).Err?
    ensures Allocate(used, bases) == Allocate(used, bases[..n])
    decreases |bases| - n
  {
    if n == |bases| {
      assert bases[..n] == bases;
    } else {
      assert bases[..n + 1][..n] == bases[..n];
      FailureIsFinal(used, bases, n + 1);
    }
  }
}
