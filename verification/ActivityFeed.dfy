/**
  The account's own activity: audit rows and link clicks, two tables with
  separate ids, shown as one list paged by the key of the last row seen.
*/
module ActivityFeed {
  import opened Wrappers

  const DEFAULT_PAGE := 50
  const MAX_PAGE := 200

  /** A row of the feed; an audit row keeps its id, a click carries its own negated. */
  datatype Entry = Entry(at: int, id: int)

  /** A row of the click log. */
  datatype Click = Click(at: int, id: nat)

  function AsEntry(c: Click): (e: Entry) {
    Entry(c.at, 0 - c.id)
  }

  /** Newer first, the larger feed id first among equal times. */
  predicate Before(a: Entry, b: Entry) {
    a.at > b.at || (a.at == b.at && a.id > b.id)
  }

  predicate Sorted(xs: seq<Entry>) {
    forall i, j :: 0 <= i < j < |xs| ==> Before(xs[i], xs[j])
  }

  /** What lies past the cursor. */
  function Below(rows: set<Entry>, cursor: Option<Entry>): (r: set<Entry>) {
    if cursor.None? then rows else set e | e in rows && Before(cursor.value, e)
  }

  predicate IsNewest(rows: set<Entry>, m: Entry) {
    m in rows && forall e :: e in rows && e != m ==> Before(m, e)
  }

  lemma {:induction false} NewestExists(rows: set<Entry>)
    requires rows != {}
    ensures exists m :: IsNewest(rows, m)
  {
    var e :| e in rows;
    if !IsNewest(rows, e) {
      var rest := rows - {e};
      if rest == {} {
        assert rows == {e};
        assert IsNewest(rows, e);
      } else {
        NewestExists(rest);
        var m :| IsNewest(rest, m);
        NewestOf(rows, e, m);
      }
    }
  }

  lemma NewestOf(rows: set<Entry>, e: Entry, m: Entry)
    requires e in rows && IsNewest(rows - {e}, m)
    ensures IsNewest(rows, if Before(m, e) then m else e)
  {
    assert Before(m, e) || Before(e, m);
    forall x | x in rows && x != e ensures Before(m, x) || x == m {
      assert x in rows - {e};
    }
  }

  /** The one list of the rows, newest first. */
  ghost function Listing(rows: set<Entry>): (r: seq<Entry>) {
    if rows == {} then []
    else
      NewestExists(rows);
      var m :| IsNewest(rows, m);
      [m] + Listing(rows - {m})
  }

  function Take(xs: seq<Entry>, n: nat): (r: seq<Entry>) {
    if |xs| <= n then xs else xs[..n]
  }

  function Elements(xs: seq<Entry>): (r: set<Entry>) {
    set e | e in xs
  }

  // ---- The list is determined by its rows ----

  lemma {:induction false} ListingIsSorted(rows: set<Entry>)
    ensures Sorted(Listing(rows)) && Elements(Listing(rows)) == rows && |Listing(rows)| == |rows|
  {
    if rows != {} {
      NewestExists(rows);
      var m :| IsNewest(rows, m);
      HeadIsNewest(rows, m);
      ListingIsSorted(rows - {m});
      SortedFrom(rows - {m}, m, Listing(rows - {m}));
      assert rows == (rows - {m}) + {m};
    }
  }

  lemma SortedFrom(rows: set<Entry>, m: Entry, tail: seq<Entry>)
    requires Sorted(tail) && Elements(tail) == rows && forall e :: e in rows ==> Before(m, e)
    ensures Sorted([m] + tail) && Elements([m] + tail) == rows + {m}
  {
  }

  lemma HeadIsNewest(rows: set<Entry>, m: Entry)
    requires IsNewest(rows, m)
    ensures Listing(rows) == [m] + Listing(rows - {m})
  {
  }

  /** Any sorted list is the list of its rows. */
  lemma {:induction false} SortedIsListing(xs: seq<Entry>)
    requires Sorted(xs)
    ensures xs == Listing(Elements(xs))
  {
    if xs != [] {
      SortedIsListing(xs[1..]);
      HeadOfSorted(xs);
      HeadIsNewest(Elements(xs), xs[0]);
      assert xs == [xs[0]] + xs[1..];
    }
  }

  lemma HeadOfSorted(xs: seq<Entry>)
    requires Sorted(xs) && xs != []
    ensures IsNewest(Elements(xs), xs[0]) && Elements(xs) - {xs[0]} == Elements(xs[1..])
  {
  }

  // ---- Merging two sources ----

  /** The first rows of a set are among any subset that contains them, and come first there too. */
  lemma {:induction false} TopOfSubset(part: set<Entry>, rows: set<Entry>, n: nat)
    requires part <= rows && Elements(Take(Listing(rows), n)) <= part
    ensures Take(Listing(part), n) == Take(Listing(rows), n)
    decreases n
  {
    if n == 0 || rows == {} {
      assert Take(Listing(rows), n) == [];
    } else {
      NewestExists(rows);
      var m :| IsNewest(rows, m);
      TopWithoutHead(rows, m, n);
      assert IsNewest(part, m);
      HeadIsNewest(part, m);
      TakeCons(m, Listing(part - {m}), n);
      TopOfSubset(part - {m}, rows - {m}, n - 1);
    }
  }

  lemma TopWithoutHead(rows: set<Entry>, m: Entry, n: nat)
    requires n > 0 && IsNewest(rows, m)
    ensures Take(Listing(rows), n) == [m] + Take(Listing(rows - {m}), n - 1)
    ensures m in Elements(Take(Listing(rows), n))
    ensures Elements(Take(Listing(rows - {m}), n - 1)) <= Elements(Take(Listing(rows), n)) - {m}
  {
    HeadIsNewest(rows, m);
    TakeCons(m, Listing(rows - {m}), n);
    ListingIsSorted(rows - {m});
    assert Take(Listing(rows), n)[0] == m;
    forall e | e in Take(Listing(rows - {m}), n - 1) ensures e in Take(Listing(rows), n) && e != m {
      assert e in Elements(Listing(rows - {m}));
    }
  }

  lemma TakeCons(m: Entry, tail: seq<Entry>, n: nat)
    requires n > 0
    ensures Take([m] + tail, n) == [m] + Take(tail, n - 1)
  {
  }

  lemma ElementsOfCons(m: Entry, tail: seq<Entry>)
    ensures Elements([m] + tail) == {m} + Elements(tail)
  {
  }

  lemma TakeLess(xs: seq<Entry>, n: nat)
    requires n > 0
    ensures Elements(Take(xs, n - 1)) <= Elements(Take(xs, n))
  {
  }

  /** Whatever is among the first of two sources together is among the first of its own. */
  lemma {:induction false} TopOfUnion(a: set<Entry>, b: set<Entry>, n: nat)
    ensures Elements(Take(Listing(a + b), n)) <= Elements(Take(Listing(a), n)) + Elements(Take(Listing(b), n))
    decreases n
  {
    if n > 0 && a + b != {} {
      NewestExists(a + b);
      var m :| IsNewest(a + b, m);
      HeadIsNewest(a + b, m);
      assert a + b - {m} == (a - {m}) + (b - {m});
      TakeCons(m, Listing(a + b - {m}), n);
      TopOfUnion(a - {m}, b - {m}, n - 1);
      TopWithout(a, m, n);
      TopWithout(b, m, n);
      ElementsOfCons(m, Take(Listing(a + b - {m}), n - 1));
    }
  }

  lemma TopWithout(a: set<Entry>, m: Entry, n: nat)
    requires n > 0 && (m in a ==> IsNewest(a, m))
    ensures Elements(Take(Listing(a - {m}), n - 1)) <= Elements(Take(Listing(a), n))
    ensures m in a ==> m in Elements(Take(Listing(a), n))
  {
    if m in a {
      HeadIsNewest(a, m);
      TakeCons(m, Listing(a - {m}), n);
      assert Take(Listing(a), n)[0] == m;
    } else {
      assert a - {m} == a;
      TakeLess(Listing(a), n);
    }
  }

  /** Reading the first rows of each source is enough for the first rows of both. */
  lemma MergeIsEnough(a: set<Entry>, b: set<Entry>, n: nat)
    ensures Take(Listing(Elements(Take(Listing(a), n)) + Elements(Take(Listing(b), n))), n) == Take(Listing(a + b), n)
  {
    ListingIsSorted(a);
    ListingIsSorted(b);
    TopOfUnion(a, b, n);
    TopOfSubset(Elements(Take(Listing(a), n)) + Elements(Take(Listing(b), n)), a + b, n);
  }

  // ---- Pages ----

  function Limit(asked: int): (n: nat)
    ensures 1 <= n <= 200
    ensures 1 <= asked <= 200 ==> n == asked
    ensures asked < 1 || asked > 200 ==> n == 50
  {
    if asked <= 0 || asked > MAX_PAGE then DEFAULT_PAGE else asked
  }

  /** The account's rows in the two tables. */
  datatype Tables = Tables(audits: set<Entry>, clicks: set<Click>)

  function ClickEntries(clicks: set<Click>): (r: set<Entry>) {
    set c | c in clicks :: AsEntry(c)
  }

  function Rows(t: Tables): (r: set<Entry>) {
    t.audits + ClickEntries(t.clicks)
  }

  /** What one call answers: the first rows of either table past the cursor, merged and cut. */
  ghost function Page(t: Tables, cursor: Option<Entry>, asked: int): (r: seq<Entry>) {
    var n := Limit(asked);
    Take(Listing(Elements(Take(Listing(Below(t.audits, cursor)), n))
                 + Elements(Take(Listing(Below(ClickEntries(t.clicks), cursor)), n))), n)
  }

  /** A page is the beginning of the one list of everything past the cursor. */
  lemma PageIsPrefix(t: Tables, cursor: Option<Entry>, asked: int)
    ensures Page(t, cursor, asked) == Take(Listing(Below(Rows(t), cursor)), Limit(asked))
  {
    assert Below(t.audits, cursor) + Below(ClickEntries(t.clicks), cursor) == Below(Rows(t), cursor);
    MergeIsEnough(Below(t.audits, cursor), Below(ClickEntries(t.clicks), cursor), Limit(asked));
  }

  /** The entry is an audit row of the account, or a click of it under the click's id negated. */
  predicate IsRow(t: Tables, e: Entry) {
    e in t.audits || (e.id <= 0 && Click(e.at, 0 - e.id) in t.clicks)
  }

  /** The entry is older than the cursor, or as old and of a smaller id. */
  predicate IsPast(cursor: Option<Entry>, e: Entry) {
    cursor.None? || e.at < cursor.value.at || (e.at == cursor.value.at && e.id < cursor.value.id)
  }

  lemma PastRows(t: Tables, cursor: Option<Entry>, e: Entry)
    ensures e in Below(Rows(t), cursor) <==> IsRow(t, e) && IsPast(cursor, e)
  {
    assert e in ClickEntries(t.clicks) <==> e.id <= 0 && Click(e.at, 0 - e.id) in t.clicks by {
      if e.id <= 0 && Click(e.at, 0 - e.id) in t.clicks {
        assert AsEntry(Click(e.at, 0 - e.id)) == e;
      }
    }
  }

  /**
    What a reader of a page can count on: only rows past the cursor are on it, the
    newest first and no two the same, and any row past the cursor that is missing
    comes after all of a full page.
  */
  ghost predicate ReadsOn(t: Tables, cursor: Option<Entry>, page: seq<Entry>, size: nat) {
    && |page| <= size
    && (forall e :: e in page ==> IsRow(t, e) && IsPast(cursor, e))
    && (forall i, j :: 0 <= i < j < |page| ==>
          page[i].at > page[j].at || (page[i].at == page[j].at && page[i].id > page[j].id))
    && (forall e :: IsRow(t, e) && IsPast(cursor, e) && e !in page ==>
          |page| == size && forall x :: x in page ==> x.at > e.at || (x.at == e.at && x.id > e.id))
  }

  lemma PrefixReadsOn(t: Tables, cursor: Option<Entry>, size: nat)
    ensures ReadsOn(t, cursor, Take(Listing(Below(Rows(t), cursor)), size), size)
  {
    var rows := Below(Rows(t), cursor);
    var list := Listing(rows);
    var page := Take(list, size);
    ListingIsSorted(rows);
    forall e ensures e in list <==> IsRow(t, e) && IsPast(cursor, e) {
      PastRows(t, cursor, e);
      assert e in list <==> e in Elements(list);
    }
    assert forall k :: 0 <= k < |page| ==> list[k] == page[k];
    forall e | e in list && e !in page
      ensures |page| == size && forall x :: x in page ==> x.at > e.at || (x.at == e.at && x.id > e.id)
    {
      var j :| 0 <= j < |list| && list[j] == e;
      assert j >= |page|;
    }
  }

  /** One request of a client paging through the feed: the tables as it finds them, and the size it asks for. */
  datatype Read = Read(tables: Tables, asked: int)

  /** The pages of successive calls one after the other; the client stops at an empty page. */
  ghost function Walk(calls: seq<Read>, cursor: Option<Entry>): (r: seq<Entry>) {
    if calls == [] then []
    else
      var page := Page(calls[0].tables, cursor, calls[0].asked);
      if page == [] then [] else page + Walk(calls[1..], Some(page[|page| - 1]))
  }

  function Total(calls: seq<Read>): (n: nat) {
    if calls == [] then 0 else Limit(calls[0].asked) + Total(calls[1..])
  }

  /** Between two calls rows are only added, and only above the place the client has reached. */
  ghost predicate GrowsAbove(calls: seq<Read>, cursor: Option<Entry>) {
    |calls| < 2 ||
    var page := Page(calls[0].tables, cursor, calls[0].asked);
    page == [] ||
    (&& Rows(calls[0].tables) <= Rows(calls[1].tables)
     && (forall e :: e in Rows(calls[1].tables) - Rows(calls[0].tables) ==> !Before(page[|page| - 1], e))
     && GrowsAbove(calls[1..], Some(page[|page| - 1])))
  }

  lemma PrefixOfSorted(xs: seq<Entry>, n: nat)
    requires Sorted(xs)
    ensures Sorted(Take(xs, n)) && (|xs| > n ==> Sorted(xs[n..]))
  {
  }

  lemma LaterIsPast(xs: seq<Entry>, i: nat, j: nat)
    requires Sorted(xs) && i < |xs| && j < |xs| && Before(xs[i], xs[j])
    ensures i < j
  {
  }

  /** What the list holds after its first rows is what lies past the last of them. */
  lemma RestOfListing(rows: set<Entry>, n: nat)
    requires 0 < n <= |Listing(rows)|
    ensures Listing(Below(rows, Some(Listing(rows)[n - 1]))) == Listing(rows)[n..]
  {
    var xs := Listing(rows);
    ListingIsSorted(rows);
    var last := xs[n - 1];
    forall e | e in xs[n..] ensures e in Below(rows, Some(last)) {
      var i :| 0 <= i < |xs[n..]| && xs[n..][i] == e;
      assert Before(last, xs[n + i]) && e in Elements(xs);
    }
    forall e | e in Below(rows, Some(last)) ensures e in xs[n..] {
      assert e in Elements(xs);
      var i :| 0 <= i < |xs| && xs[i] == e;
      LaterIsPast(xs, n - 1, i);
      assert xs[n..][i - n] == e;
    }
    assert Elements(xs[n..]) == Below(rows, Some(last));
    SortedIsListing(xs[n..]);
  }

  lemma BelowTwice(rows: set<Entry>, cursor: Option<Entry>, next: Entry)
    requires next in Below(rows, cursor)
    ensures Below(Below(rows, cursor), Some(next)) == Below(rows, Some(next))
  {
  }

  /**
    Paging is complete and never repeats: whatever sizes are asked for, and
    whatever is added above the client meanwhile, the pages one after the other
    are the beginning of the one list there was past the first cursor.
  */
  lemma {:induction false} WalkIsPrefix(calls: seq<Read>, cursor: Option<Entry>)
    requires GrowsAbove(calls, cursor) && calls != []
    ensures Walk(calls, cursor) == Take(Listing(Below(Rows(calls[0].tables), cursor)), Total(calls))
    decreases |calls|
  {
    var page := Page(calls[0].tables, cursor, calls[0].asked);
    PageIsPrefix(calls[0].tables, cursor, calls[0].asked);
    if page != [] && |calls| > 1 {
      var last := page[|page| - 1];
      WalkIsPrefix(calls[1..], Some(last));
      WalkOn(calls, cursor, page, last);
    } else {
      WalkStops(calls, cursor, page);
    }
  }

  lemma WalkStops(calls: seq<Read>, cursor: Option<Entry>, page: seq<Entry>)
    requires calls != [] && page == Page(calls[0].tables, cursor, calls[0].asked) && (page == [] || |calls| == 1)
    requires page == Take(Listing(Below(Rows(calls[0].tables), cursor)), Limit(calls[0].asked))
    ensures Walk(calls, cursor) == Take(Listing(Below(Rows(calls[0].tables), cursor)), Total(calls))
  {
  }

  lemma WalkOn(calls: seq<Read>, cursor: Option<Entry>, page: seq<Entry>, last: Entry)
    requires |calls| > 1 && page == Page(calls[0].tables, cursor, calls[0].asked) && page != []
             && last == page[|page| - 1]
    requires page == Take(Listing(Below(Rows(calls[0].tables), cursor)), Limit(calls[0].asked))
    requires Rows(calls[0].tables) <= Rows(calls[1].tables)
    requires forall e :: e in Rows(calls[1].tables) - Rows(calls[0].tables) ==> !Before(last, e)
    requires Walk(calls[1..], Some(last)) == Take(Listing(Below(Rows(calls[1].tables), Some(last))), Total(calls[1..]))
    ensures Walk(calls, cursor) == Take(Listing(Below(Rows(calls[0].tables), cursor)), Total(calls))
  {
    var list := Listing(Below(Rows(calls[0].tables), cursor));
    RestAfterPage(Rows(calls[0].tables), cursor, page, Limit(calls[0].asked));
    NothingNewBelow(Rows(calls[0].tables), Rows(calls[1].tables), last);
    TakeSplit(list, |page|, Limit(calls[0].asked), Total(calls[1..]));
  }

  lemma RestAfterPage(rows: set<Entry>, cursor: Option<Entry>, page: seq<Entry>, n: nat)
    requires page == Take(Listing(Below(rows, cursor)), n) && page != []
    ensures |page| <= |Listing(Below(rows, cursor))| && page == Listing(Below(rows, cursor))[..|page|]
    ensures Listing(Below(rows, Some(page[|page| - 1]))) == Listing(Below(rows, cursor))[|page|..]
  {
    var list := Listing(Below(rows, cursor));
    ListingIsSorted(Below(rows, cursor));
    assert page[|page| - 1] == list[|page| - 1];
    assert list[|page| - 1] in Elements(list);
    RestOfListing(Below(rows, cursor), |page|);
    BelowTwice(rows, cursor, page[|page| - 1]);
  }

  lemma NothingNewBelow(before: set<Entry>, after: set<Entry>, last: Entry)
    requires before <= after && forall e :: e in after - before ==> !Before(last, e)
    ensures Below(after, Some(last)) == Below(before, Some(last))
  {
  }

  lemma TakeSplit(xs: seq<Entry>, k: nat, n: nat, m: nat)
    requires k <= |xs| && Take(xs, n) == xs[..k]
    ensures xs[..k] + Take(xs[k..], m) == Take(xs, n + m)
  {
  }

  /** Read on to the end, the pages are the whole list: every row past the cursor, once. */
  lemma WalkReachesTheEnd(calls: seq<Read>, cursor: Option<Entry>)
    requires GrowsAbove(calls, cursor) && calls != [] && Total(calls) >= |Below(Rows(calls[0].tables), cursor)|
    ensures Walk(calls, cursor) == Listing(Below(Rows(calls[0].tables), cursor))
    ensures Sorted(Walk(calls, cursor)) && Elements(Walk(calls, cursor)) == Below(Rows(calls[0].tables), cursor)
  {
    WalkIsPrefix(calls, cursor);
    ListingIsSorted(Below(Rows(calls[0].tables), cursor));
  }

  // ---- Clients that send the id alone ----

  /**
    What lies past the row `c` for a client that sends its id and no time. The
    other table is bounded by the time of `c`; its own table by the id, or by
    time and click id, the larger click id counting as the later.
  */
  function LegacyBelow(t: Tables, c: Entry): (r: set<Entry>) {
    if c.id > 0 then
      (set e | e in t.audits && e.id < c.id) + (set e | e in ClickEntries(t.clicks) && e.at < c.at)
    else
      (set e | e in t.audits && e.at < c.at)
      + (set e | e in ClickEntries(t.clicks) && (e.at < c.at || (e.at == c.at && e.id > c.id)))
  }

  predicate HasClickAt(t: Tables, at: int, except: int) {
    exists e :: e in ClickEntries(t.clicks) && e.at == at && e.id != except
  }

  /** No audit row has a smaller id than `c` and a later time, or another id and an earlier time. */
  predicate InStep(t: Tables, c: Entry) {
    forall e :: e in t.audits ==> if e.id < c.id then e.at <= c.at else e.at >= c.at
  }

  /** Feed ids tell the tables apart. */
  predicate WellFormed(t: Tables) {
    (forall e :: e in t.audits ==> e.id > 0) && (forall c :: c in t.clicks ==> c.id > 0)
  }

  /**
    The id alone finds the right place exactly when no other click happened at
    the moment of the row and, for an audit row, ids and times run the same way.
  */
  lemma LegacyCursorIsExact(t: Tables, c: Entry)
    requires WellFormed(t) && c in Rows(t)
    ensures LegacyBelow(t, c) == Below(Rows(t), Some(c)) <==> !HasClickAt(t, c.at, c.id) && (c.id > 0 ==> InStep(t, c))
  {
    assert forall e :: e in ClickEntries(t.clicks) ==> e.id < 0;
    if HasClickAt(t, c.at, c.id) {
      var e :| e in ClickEntries(t.clicks) && e.at == c.at && e.id != c.id;
      assert e in LegacyBelow(t, c) <==> e !in Below(Rows(t), Some(c));
    } else if c.id > 0 && !InStep(t, c) {
      var e :| e in t.audits && if e.id < c.id then e.at > c.at else e.at < c.at;
      assert e in LegacyBelow(t, c) <==> e !in Below(Rows(t), Some(c));
    }
  }

  /** Two clicks in one moment: past the first, the id alone finds nothing, and the second is never shown. */
  lemma LegacyCursorSkips()
    ensures var t := Tables({}, {Click(7, 1), Click(7, 2)});
            Entry(7, -2) in Below(Rows(t), Some(Entry(7, -1))) && Entry(7, -2) !in LegacyBelow(t, Entry(7, -1))
  {
  }

  // ---- The code that answers a page ----

  /** The order of the click query: newer first, the smaller id first among equal times. */
  predicate ClickBefore(a: Click, b: Click) {
    a.at > b.at || (a.at == b.at && a.id < b.id)
  }

  /** The first `n` of `rows` in the order of the audit query. */
  ghost predicate AnswersAudits(xs: seq<Entry>, rows: set<Entry>, n: nat) {
    && Sorted(xs) && Elements(xs) <= rows && |xs| <= n
    && (|xs| < n ==> Elements(xs) == rows)
    && (forall e, x :: e in rows && e !in xs && x in xs ==> Before(x, e))
  }

  /** The first `n` of `rows` in the order of the click query. */
  ghost predicate AnswersClicks(xs: seq<Click>, rows: set<Click>, n: nat) {
    && (forall i, j :: 0 <= i < j < |xs| ==> ClickBefore(xs[i], xs[j]))
    && (forall x :: x in xs ==> x in rows) && |xs| <= n
    && (|xs| < n ==> forall c :: c in rows ==> c in xs)
    && (forall c, x :: c in rows && c !in xs && x in xs ==> ClickBefore(x, c))
  }

  /** The click query's bound, in click ids. */
  predicate ClickBelow(c: Click, cursor: Option<Entry>) {
    cursor.None? || c.at < cursor.value.at || (c.at == cursor.value.at && 0 - c.id < cursor.value.id)
  }

  function ClicksBelow(rows: set<Click>, cursor: Option<Entry>): (r: set<Click>) {
    set c | c in rows && ClickBelow(c, cursor)
  }

  lemma OthersComeAfter(xs: seq<Entry>, rows: set<Entry>, rest: seq<Entry>, n: nat)
    requires AnswersAudits(xs, rows, n) && Elements(rest) == rows - Elements(xs)
    ensures forall x, y :: x in xs && y in rest ==> Before(x, y)
  {
    forall x, y | x in xs && y in rest ensures Before(x, y) {
      assert y in Elements(rest);
      assert y in rows && y !in xs;
    }
  }

  /** A full answer is followed by nothing that belongs before it; a short one by nothing. */
  lemma AnswerIsTop(xs: seq<Entry>, rows: set<Entry>, n: nat)
    requires AnswersAudits(xs, rows, n)
    ensures xs == Take(Listing(rows), n)
  {
    var rest := Listing(rows - Elements(xs));
    ListingIsSorted(rows - Elements(xs));
    OthersComeAfter(xs, rows, rest, n);
    SplitListing(xs, rest, rows);
    if |xs| < n {
      assert rows - Elements(xs) == {};
    }
    TakeOfConcat(xs, rest, n);
  }

  lemma SplitListing(xs: seq<Entry>, rest: seq<Entry>, rows: set<Entry>)
    requires Sorted(xs) && Sorted(rest) && Elements(xs) <= rows && Elements(rest) == rows - Elements(xs)
    requires forall x, y :: x in xs && y in rest ==> Before(x, y)
    ensures Listing(rows) == xs + rest
  {
    ConcatIsSorted(xs, rest);
    SortedIsListing(xs + rest);
    assert Elements(xs) + Elements(rest) == rows;
  }

  lemma ConcatIsSorted(xs: seq<Entry>, ys: seq<Entry>)
    requires Sorted(xs) && Sorted(ys) && forall x, y :: x in xs && y in ys ==> Before(x, y)
    ensures Sorted(xs + ys) && Elements(xs + ys) == Elements(xs) + Elements(ys)
  {
  }

  lemma TakeOfConcat(xs: seq<Entry>, ys: seq<Entry>, n: nat)
    requires |xs| == n || (|xs| < n && ys == [])
    ensures Take(xs + ys, n) == xs
  {
  }

  /** Insertion into a list, newest first. */
  function Inserted(xs: seq<Entry>, e: Entry): (r: seq<Entry>) {
    if xs == [] || Before(e, xs[0]) then [e] + xs else [xs[0]] + Inserted(xs[1..], e)
  }

  lemma {:induction false} InsertedIsSorted(xs: seq<Entry>, e: Entry)
    requires Sorted(xs) && e !in xs
    ensures Sorted(Inserted(xs, e)) && Elements(Inserted(xs, e)) == Elements(xs) + {e}
  {
    if xs == [] || Before(e, xs[0]) {
      SortedFrom(Elements(xs), e, xs);
    } else {
      InsertedIsSorted(xs[1..], e);
      HeadOfSorted(xs);
      assert forall x :: x in Elements(xs[1..]) + {e} ==> Before(xs[0], x);
      SortedFrom(Elements(xs[1..]) + {e}, xs[0], Inserted(xs[1..], e));
    }
  }

  lemma NotAmongEarlier(xs: seq<Entry>, i: nat)
    requires Sorted(xs) && i < |xs|
    ensures xs[i] !in Elements(xs[..i])
  {
  }

  /** Folds the click rows into the audit rows in feed order and cuts the page back to its size. */
  method MergeActivityClicks(audits: seq<Entry>, clicks: seq<Entry>, limit: nat) returns (page: seq<Entry>)
    requires Sorted(audits) && Sorted(clicks) && Elements(audits) !! Elements(clicks)
    ensures page == Take(Listing(Elements(audits) + Elements(clicks)), limit)
  {
    page := audits;
    for i := 0 to |clicks|
      invariant Sorted(page) && Elements(page) == Elements(audits) + Elements(clicks[..i])
    {
      NotAmongEarlier(clicks, i);
      assert clicks[i] in Elements(clicks) && clicks[i] !in Elements(page);
      InsertedIsSorted(page, clicks[i]);
      ElementsOfNext(clicks, i);
      page := Inserted(page, clicks[i]);
    }
    assert clicks[..|clicks|] == clicks;
    SortedIsListing(page);
    if |page| > limit {
      page := page[..limit];
    }
  }

  lemma ElementsOfNext(xs: seq<Entry>, i: nat)
    requires i < |xs|
    ensures Elements(xs[..i + 1]) == Elements(xs[..i]) + {xs[i]}
  {
  }

  /** The click rows as feed rows: each id negated. */
  method OwnClicks(answer: seq<Click>, ghost rows: set<Click>, ghost cursor: Option<Entry>, ghost limit: nat)
    returns (entries: seq<Entry>)
    requires AnswersClicks(answer, ClicksBelow(rows, cursor), limit)
    ensures entries == Take(Listing(Below(ClickEntries(rows), cursor)), limit)
  {
    entries := [];
    for i := 0 to |answer|
      invariant |entries| == i && forall j :: 0 <= j < i ==> entries[j] == AsEntry(answer[j])
    {
      entries := entries + [AsEntry(answer[i])];
    }
    ClicksInFeedOrder(answer, ClicksBelow(rows, cursor), entries, limit);
    assert ClickEntries(ClicksBelow(rows, cursor)) == Below(ClickEntries(rows), cursor) by {
      assert forall c: Click :: ClickBelow(c, cursor) <==> cursor.None? || Before(cursor.value, AsEntry(c));
    }
    AnswerIsTop(entries, Below(ClickEntries(rows), cursor), limit);
  }

  lemma ClicksInFeedOrder(xs: seq<Click>, rows: set<Click>, entries: seq<Entry>, n: nat)
    requires AnswersClicks(xs, rows, n)
    requires |entries| == |xs| && forall j :: 0 <= j < |xs| ==> entries[j] == AsEntry(xs[j])
    ensures AnswersAudits(entries, ClickEntries(rows), n)
  {
    forall e | e in entries ensures exists c :: c in xs && AsEntry(c) == e {
      var j :| 0 <= j < |entries| && entries[j] == e;
      assert xs[j] in xs;
    }
    forall c | c in xs ensures AsEntry(c) in entries {
      var j :| 0 <= j < |xs| && xs[j] == c;
      assert entries[j] == AsEntry(c);
    }
    forall e | e in ClickEntries(rows) && e !in entries
      ensures forall x :: x in entries ==> Before(x, e)
      ensures |xs| == n
    {
      var c :| c in rows && AsEntry(c) == e;
      assert c !in xs;
    }
  }

  /**
    One page: two queries and a merge. `clicks` is missing when the click table
    is, and the page is then the audit rows alone.
  */
  method ListOwnActivity(ghost t: Tables, ghost cursor: Option<Entry>, asked: int, audits: seq<Entry>,
                         clicks: Option<seq<Click>>)
    returns (page: seq<Entry>)
    requires forall e :: e in t.audits ==> e.id > 0
    requires AnswersAudits(audits, Below(t.audits, cursor), Limit(asked))
    requires clicks.Some? ==> AnswersClicks(clicks.value, ClicksBelow(t.clicks, cursor), Limit(asked))
    requires clicks.None? ==> t.clicks == {}
    ensures page == Take(Listing(Below(Rows(t), cursor)), Limit(asked))
    ensures ReadsOn(t, cursor, page, if 1 <= asked <= 200 then asked else 50)
  {
    var limit := if asked <= 0 || asked > MAX_PAGE then DEFAULT_PAGE else asked;
    PrefixReadsOn(t, cursor, limit);
    AnswerIsTop(audits, Below(t.audits, cursor), limit);
    PageIsPrefix(t, cursor, asked);
    var entries := [];
    if clicks.Some? {
      entries := OwnClicks(clicks.value, t.clicks, cursor, limit);
    } else {
      assert Below(ClickEntries(t.clicks), cursor) == {};
    }
    ListingIsSorted(Below(ClickEntries(t.clicks), cursor));
    PrefixOfSorted(Listing(Below(ClickEntries(t.clicks), cursor)), limit);
    assert Elements(audits) !! Elements(entries) by {
      assert forall e :: e in Elements(entries) ==> e in Elements(Listing(Below(ClickEntries(t.clicks), cursor)));
      assert forall e :: e in ClickEntries(t.clicks) ==> e.id <= 0;
    }
    page := MergeActivityClicks(audits, entries, limit);
  }
}
