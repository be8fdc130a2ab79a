/**
  The bytes fed to the hashes: the archive digest and the MACs of one-time
  codes. Hashing itself is not modelled; what is proved is that different things
  are never written the same way.
*/
module Encodings {
  import opened Wrappers

  type Byte = b: int | 0 <= b < 256
  type Bytes = seq<Byte>

  const TWO_TO_32: int := 0x1_0000_0000
  const TWO_TO_63: int := 0x8000_0000_0000_0000
  const TWO_TO_64: int := 0x1_0000_0000_0000_0000
  const HASH_LENGTH := 71

  // ---- Fixed-width numbers ----

  /** The low `width` bytes of `n`, most significant first. */
  function BigEndian(n: nat, width: nat): (s: Bytes)
    ensures |s| == width
  {
    if width == 0 then [] else BigEndian(n / 256, width - 1) + [n % 256]
  }

  function FromBigEndian(s: Bytes): (n: nat) {
    if s == [] then 0 else FromBigEndian(s[..|s| - 1]) * 256 + s[|s| - 1]
  }

  function Power(width: nat): (p: nat)
    ensures p > 0
  {
    if width == 0 then 1 else 256 * Power(width - 1)
  }

  lemma {:induction false} NumberRoundTrip(n: nat, width: nat)
    requires n < Power(width)
    ensures FromBigEndian(BigEndian(n, width)) == n
  {
    if width > 0 {
      var s := BigEndian(n, width);
      assert s[..|s| - 1] == BigEndian(n / 256, width - 1);
      NumberRoundTrip(n / 256, width - 1);
    }
  }

  lemma Powers()
    ensures Power(4) == TWO_TO_32 && Power(8) == TWO_TO_64
  {
  }

  /** Byte by byte, the most significant first. */
  lemma FourBytes(n: nat)
    ensures var (a, b, c) := (n / 256, n / 256 / 256, n / 256 / 256 / 256);
            BigEndian(n, 4) == [c % 256, b % 256, a % 256, n % 256]
  {
    var a, b, c := n / 256, n / 256 / 256, n / 256 / 256 / 256;
    LastByte(n, 4);
    LastByte(a, 3);
    LastByte(b, 2);
    LastByte(c, 1);
  }

  lemma LastByte(n: nat, width: nat)
    requires width > 0
    ensures BigEndian(n, width) == BigEndian(n / 256, width - 1) + [n % 256]
  {
  }

  /** Eight bytes are the four of the upper half before the four of the lower. */
  lemma EightBytes(n: nat)
    ensures BigEndian(n, 8) == BigEndian(n / 256 / 256 / 256 / 256, 4) + BigEndian(n, 4)
  {
    var a, b, c := n / 256, n / 256 / 256, n / 256 / 256 / 256;
    LastByte(n, 8);
    LastByte(a, 7);
    LastByte(b, 6);
    LastByte(c, 5);
    FourBytes(n);
  }

  /** The two's complement of a signed 64-bit number. */
  function Unsigned(x: int): (n: nat)
    requires -TWO_TO_63 <= x < TWO_TO_63
    ensures n < TWO_TO_64
  {
    if x < 0 then x + TWO_TO_64 else x
  }

  function Signed(n: nat): (x: int)
    requires n < TWO_TO_64
    ensures -TWO_TO_63 <= x < TWO_TO_63
  {
    if n >= TWO_TO_63 then n - TWO_TO_64 else n
  }

  function U64(x: int): (s: Bytes)
    requires -TWO_TO_63 <= x < TWO_TO_63
    ensures |s| == 8
  {
    BigEndian(Unsigned(x), 8)
  }

  /** A length prefix of four bytes keeps the low 32 bits of the length. */
  function Prefixed(s: Bytes): (r: Bytes)
    ensures |r| == |s| + 4
  {
    BigEndian(|s| % TWO_TO_32, 4) + s
  }

  // ---- Reading back ----

  function ReadU64(s: Bytes): (r: Option<(int, Bytes)>) {
    if |s| < 8 then None
    else
      var n := FromBigEndian(s[..8]);
      if n < TWO_TO_64 then Some((Signed(n), s[8..])) else None
  }

  function ReadString(s: Bytes): (r: Option<(Bytes, Bytes)>) {
    if |s| < 4 then None
    else
      var n := FromBigEndian(s[..4]);
      if |s| < 4 + n then None else Some((s[4..4 + n], s[4 + n..]))
  }

  lemma ReadsU64(x: int, rest: Bytes)
    requires -TWO_TO_63 <= x < TWO_TO_63
    ensures ReadU64(U64(x) + rest) == Some((x, rest))
  {
    Powers();
    NumberRoundTrip(Unsigned(x), 8);
    var s := U64(x) + rest;
    assert s[..8] == U64(x) && s[8..] == rest;
  }

  lemma ReadsString(v: Bytes, rest: Bytes)
    requires |v| < TWO_TO_32
    ensures ReadString(Prefixed(v) + rest) == Some((v, rest))
  {
    var p := BigEndian(|v|, 4);
    PrefixIsLength(v);
    Cut(p, v, rest);
    ReadsParts(p, v, rest);
  }

  lemma PrefixIsLength(v: Bytes)
    requires |v| < TWO_TO_32
    ensures var p := BigEndian(|v|, 4); |p| == 4 && FromBigEndian(p) == |v| && Prefixed(v) == p + v
  {
    assert |v| % TWO_TO_32 == |v|;
    FourBytesRoundTrip(|v|);
  }

  lemma FourBytesRoundTrip(n: nat)
    requires n < TWO_TO_32
    ensures FromBigEndian(BigEndian(n, 4)) == n
  {
    Powers();
    NumberRoundTrip(n, 4);
  }

  lemma EightBytesRoundTrip(n: nat)
    requires n < TWO_TO_64
    ensures FromBigEndian(BigEndian(n, 8)) == n
  {
    Powers();
    NumberRoundTrip(n, 8);
  }

  lemma ReadsParts(p: Bytes, v: Bytes, rest: Bytes)
    requires |p| == 4 && FromBigEndian(p) == |v|
    requires var s := p + v + rest; s[..4] == p && s[4..4 + |v|] == v && s[4 + |v|..] == rest
    ensures ReadString(p + v + rest) == Some((v, rest))
  {
  }

  lemma Cut(a: Bytes, b: Bytes, c: Bytes)
    ensures var s := a + b + c;
            s[..|a|] == a && s[|a|..|a| + |b|] == b && s[|a| + |b|..] == c
  {
  }

  // ---- One-time codes ----

  /** What the MAC of a mailed code covers. */
  datatype Mailed = Mailed(version: Byte, purpose: Bytes, user: int, challenge: Option<int>, code: Bytes)

  predicate Fits(x: int) {
    -TWO_TO_63 <= x < TWO_TO_63
  }

  predicate Storable(m: Mailed) {
    Fits(m.user) && (m.challenge.Some? ==> Fits(m.challenge.value))
  }

  predicate Short(m: Mailed) {
    |m.purpose| < TWO_TO_32 && |m.code| < TWO_TO_32
  }

  function Header(version: Byte, purpose: Bytes, user: int): (s: Bytes)
    requires Fits(user)
  {
    [version] + Prefixed(purpose) + U64(user)
  }

  function ChallengeBytes(challenge: Option<int>): (s: Bytes)
    requires challenge.Some? ==> Fits(challenge.value)
  {
    if challenge.None? then [0] else [1] + U64(challenge.value)
  }

  function MailedBytes(m: Mailed): (s: Bytes)
    requires Storable(m)
  {
    Header(m.version, m.purpose, m.user) + ChallengeBytes(m.challenge) + Prefixed(m.code)
  }

  /** The fields of a mailed code in the order in which they are written, each with its own width. */
  lemma MailedLayout(m: Mailed)
    requires Storable(m)
    ensures var (s, p, mark) := (MailedBytes(m), |m.purpose|, if m.challenge.None? then 1 else 9);
      && |s| == 1 + 4 + p + 8 + mark + 4 + |m.code|
      && s[0] == m.version && s[1..5] == BigEndian(p % TWO_TO_32, 4) && s[5..5 + p] == m.purpose
      && s[5 + p..13 + p] == BigEndian(if m.user < 0 then m.user + TWO_TO_64 else m.user, 8)
      && s[13 + p] == (if m.challenge.None? then 0 else 1)
      && (m.challenge.Some? ==>
            s[14 + p..22 + p]
            == BigEndian(if m.challenge.value < 0 then m.challenge.value + TWO_TO_64 else m.challenge.value, 8))
      && s[13 + p + mark..17 + p + mark] == BigEndian(|m.code| % TWO_TO_32, 4) && s[17 + p + mark..] == m.code
  {
    var s := MailedBytes(m);
    assert s == [m.version] + BigEndian(|m.purpose| % TWO_TO_32, 4) + m.purpose + U64(m.user)
                + ChallengeBytes(m.challenge) + BigEndian(|m.code| % TWO_TO_32, 4) + m.code;
  }

  function ReadHeader(s: Bytes): (r: Option<((Byte, Bytes, int), Bytes)>) {
    if s == [] then None
    else
      var purpose := ReadString(s[1..]);
      if purpose.None? then None
      else
        var user := ReadU64(purpose.value.1);
        if user.None? then None else Some(((s[0], purpose.value.0, user.value.0), user.value.1))
  }

  function ReadChallenge(s: Bytes): (r: Option<(Option<int>, Bytes)>) {
    if s == [] then None
    else if s[0] == 0 then Some((None, s[1..]))
    else
      var x := ReadU64(s[1..]);
      if x.None? then None else Some((Some(x.value.0), x.value.1))
  }

  function ReadMailed(s: Bytes): (r: Option<Mailed>) {
    var header := ReadHeader(s);
    if header.None? then None
    else
      var challenge := ReadChallenge(header.value.1);
      if challenge.None? then None
      else
        var code := ReadString(challenge.value.1);
        if code.None? || code.value.1 != [] then None
        else
          var (version, purpose, user) := header.value.0;
          Some(Mailed(version, purpose, user, challenge.value.0, code.value.0))
  }

  lemma ReadsHeader(version: Byte, purpose: Bytes, user: int, rest: Bytes)
    requires Fits(user) && |purpose| < TWO_TO_32
    ensures ReadHeader(Header(version, purpose, user) + rest) == Some(((version, purpose, user), rest))
  {
    var s := Header(version, purpose, user) + rest;
    assert s[1..] == Prefixed(purpose) + (U64(user) + rest);
    ReadsString(purpose, U64(user) + rest);
    ReadsU64(user, rest);
  }

  lemma ReadsChallenge(challenge: Option<int>, rest: Bytes)
    requires challenge.Some? ==> Fits(challenge.value)
    ensures ReadChallenge(ChallengeBytes(challenge) + rest) == Some((challenge, rest))
  {
    var s := ChallengeBytes(challenge) + rest;
    if challenge.None? {
      assert s[1..] == rest;
    } else {
      assert s[1..] == U64(challenge.value) + rest;
      ReadsU64(challenge.value, rest);
    }
  }

  /** What was written for a mailed code can be read back whole. */
  lemma MailedRoundTrip(m: Mailed)
    requires Storable(m) && Short(m)
    ensures ReadMailed(MailedBytes(m)) == Some(m)
  {
    var tail := ChallengeBytes(m.challenge) + Prefixed(m.code);
    assert MailedBytes(m) == Header(m.version, m.purpose, m.user) + tail;
    ReadsHeader(m.version, m.purpose, m.user, tail);
    ReadsChallenge(m.challenge, Prefixed(m.code));
    ReadsString(m.code, []);
    assert Prefixed(m.code) + [] == Prefixed(m.code);
  }

  /** Under one key, two mailed codes are covered by the same bytes only when everything about them is the same. */
  lemma MailedIsUnambiguous(a: Mailed, b: Mailed)
    requires Storable(a) && Short(a) && Storable(b) && Short(b)
    ensures MailedBytes(a) == MailedBytes(b) <==> a == b
  {
    MailedRoundTrip(a);
    MailedRoundTrip(b);
  }

  /** The bound on the lengths is exact: at 2^32 the prefix wraps and two codes are written the same. */
  lemma LongStringsCollide()
    ensures var long := seq(TWO_TO_32, i => 0);
            var a, b := Mailed(0, long, 0, None, []), Mailed(0, [], 0, None, long);
            a != b && MailedBytes(a) == MailedBytes(b)
  {
    var long: Bytes := seq(TWO_TO_32, i => 0);
    var a, b := Mailed(0, long, 0, None, []), Mailed(0, [], 0, None, long);
    ZeroIsZeros(4);
    ZeroIsZeros(8);
    assert |long| % TWO_TO_32 == 0;
    assert forall i :: 0 <= i < |MailedBytes(a)| ==> MailedBytes(a)[i] == 0;
    assert forall i :: 0 <= i < |MailedBytes(b)| ==> MailedBytes(b)[i] == 0;
    assert |a.purpose| != |b.purpose|;
  }

  lemma {:induction false} ZeroIsZeros(width: nat)
    ensures forall i :: 0 <= i < width ==> BigEndian(0, width)[i] == 0
  {
    if width > 0 {
      ZeroIsZeros(width - 1);
    }
  }

  /** Recovery codes have their own key and purpose and no challenge. */
  function RecoveryBytes(version: Byte, purpose: Bytes, user: int, code: Bytes): (s: Bytes)
    requires Fits(user)
  {
    Header(version, purpose, user) + Prefixed(code)
  }

  lemma RecoveryIsUnambiguous(purpose: Bytes, v: Byte, u: int, c: Bytes, w: Byte, x: int, d: Bytes)
    requires Fits(u) && Fits(x) && |purpose| < TWO_TO_32 && |c| < TWO_TO_32 && |d| < TWO_TO_32
    ensures RecoveryBytes(v, purpose, u, c) == RecoveryBytes(w, purpose, x, d) <==> v == w && u == x && c == d
  {
    ReadsHeader(v, purpose, u, Prefixed(c));
    ReadsHeader(w, purpose, x, Prefixed(d));
    ReadsString(c, []);
    ReadsString(d, []);
    assert Prefixed(c) + [] == Prefixed(c) && Prefixed(d) + [] == Prefixed(d);
  }

  /** The writes in the order the code makes them. */
  method WriteMailed(m: Mailed) returns (out: Bytes)
    requires Storable(m)
    ensures out == MailedBytes(m)
  {
    out := [m.version];
    out := out + BigEndian(|m.purpose| % TWO_TO_32, 4);
    out := out + m.purpose;
    out := out + U64(m.user);
    if m.challenge.None? {
      out := out + [0];
    } else {
      out := out + [1];
      out := out + U64(m.challenge.value);
    }
    out := out + BigEndian(|m.code| % TWO_TO_32, 4);
    out := out + m.code;
  }

  // ---- The archive digest ----

  datatype Entry = Entry(name: Bytes, hash: Bytes)

  predicate IsEntry(e: Entry) {
    |e.name| < TWO_TO_63 && |e.hash| == HASH_LENGTH
  }

  function EntryBytes(e: Entry): (s: Bytes)
    requires IsEntry(e)
    ensures |s| >= 8
  {
    BigEndian(|e.name|, 8) + e.name + e.hash
  }

  function ArchiveBytes(es: seq<Entry>): (s: Bytes)
    requires forall i :: 0 <= i < |es| ==> IsEntry(es[i])
  {
    if es == [] then [] else ArchiveBytes(es[..|es| - 1]) + EntryBytes(es[|es| - 1])
  }

  /** One file: the length of its name in eight bytes, its name, its hash. */
  lemma EntryLayout(e: Entry)
    requires IsEntry(e)
    ensures var s := EntryBytes(e);
      && |s| == 8 + |e.name| + |e.hash| && s[..8] == BigEndian(|e.name|, 8)
      && s[8..8 + |e.name|] == e.name && s[8 + |e.name|..] == e.hash
  {
    Cut(BigEndian(|e.name|, 8), e.name, e.hash);
  }

  lemma EntriesFollow(a: Entry, b: Entry, s: Bytes, t: Bytes)
    requires IsEntry(a) && IsEntry(b) && EntryBytes(a) + s == EntryBytes(b) + t
    ensures a == b && s == t
  {
    EntryParts(a, s);
    EntryParts(b, t);
  }

  /** Where the parts of an entry lie; the length prefix says how long the name is. */
  lemma EntryParts(e: Entry, rest: Bytes)
    requires IsEntry(e)
    ensures var x, n := EntryBytes(e) + rest, |e.name|;
      && |x| >= 8 + n + HASH_LENGTH && FromBigEndian(x[..8]) == n
      && x[8..8 + n] == e.name && x[8 + n..8 + n + HASH_LENGTH] == e.hash && x[8 + n + HASH_LENGTH..] == rest
  {
    EightBytesRoundTrip(|e.name|);
    var x, p := EntryBytes(e) + rest, BigEndian(|e.name|, 8);
    assert x == p + e.name + (e.hash + rest);
    Cut(p, e.name, e.hash + rest);
    Cut(p + e.name, e.hash, rest);
    assert x == (p + e.name) + e.hash + rest;
  }

  lemma {:induction false} ArchiveFromFront(es: seq<Entry>)
    requires es != [] && forall i :: 0 <= i < |es| ==> IsEntry(es[i])
    ensures ArchiveBytes(es) == EntryBytes(es[0]) + ArchiveBytes(es[1..])
  {
    if |es| == 1 {
      assert es[..0] == [] && es[1..] == [];
      assert ArchiveBytes(es) == [] + EntryBytes(es[0]);
    } else {
      var n := |es| - 1;
      ArchiveFromFront(es[..n]);
      assert es[..n][1..] == es[1..][..n - 1] && es[1..][n - 1] == es[n];
      var first, middle, last := EntryBytes(es[0]), ArchiveBytes(es[..n][1..]), EntryBytes(es[n]);
      Regroup(ArchiveBytes(es), ArchiveBytes(es[..n]), ArchiveBytes(es[1..]), first, middle, last);
    }
  }

  lemma Regroup(all: Bytes, init: Bytes, tail: Bytes, first: Bytes, middle: Bytes, last: Bytes)
    requires all == init + last && init == first + middle && tail == middle + last
    ensures all == first + tail
  {
  }

  /** The same bytes come only from the same entries in the same order. */
  lemma {:induction false} ArchiveIsUnambiguous(es: seq<Entry>, fs: seq<Entry>)
    requires (forall i :: 0 <= i < |es| ==> IsEntry(es[i])) && (forall i :: 0 <= i < |fs| ==> IsEntry(fs[i]))
    requires ArchiveBytes(es) == ArchiveBytes(fs)
    ensures es == fs
  {
    if es == [] || fs == [] {
      if es != [] {
        ArchiveFromFront(es);
      }
      if fs != [] {
        ArchiveFromFront(fs);
      }
    } else {
      ArchiveFromFront(es);
      ArchiveFromFront(fs);
      EntriesFollow(es[0], fs[0], ArchiveBytes(es[1..]), ArchiveBytes(fs[1..]));
      ArchiveIsUnambiguous(es[1..], fs[1..]);
      assert es == [es[0]] + es[1..] && fs == [fs[0]] + fs[1..];
    }
  }

  /** Byte order: the first difference decides, and a prefix comes first. */
  predicate Less(a: Bytes, b: Bytes) {
    b != [] && (a == [] || a[0] < b[0] || (a[0] == b[0] && Less(a[1..], b[1..])))
  }

  lemma {:induction false} LessIsIrreflexive(a: Bytes)
    ensures !Less(a, a)
  {
    if a != [] {
      LessIsIrreflexive(a[1..]);
    }
  }

  lemma {:induction false} LessIsTransitive(a: Bytes, b: Bytes, c: Bytes)
    requires Less(a, b) && Less(b, c)
    ensures Less(a, c)
  {
    if a != [] && a[0] == b[0] && b[0] == c[0] {
      LessIsTransitive(a[1..], b[1..], c[1..]);
    }
  }

  /** The entries of a map, each name once, in byte order of the names. */
  ghost predicate Lists(es: seq<Entry>, hashes: map<Bytes, Bytes>) {
    && (forall i, j :: 0 <= i < j < |es| ==> Less(es[i].name, es[j].name))
    && (forall i :: 0 <= i < |es| ==> es[i].name in hashes && hashes[es[i].name] == es[i].hash)
    && (forall name :: name in hashes ==> Entry(name, hashes[name]) in es)
  }

  /** What two lists of one map start with. */
  lemma SameFirst(es: seq<Entry>, fs: seq<Entry>, hashes: map<Bytes, Bytes>)
    requires Lists(es, hashes) && Lists(fs, hashes) && es != [] && fs != []
    ensures es[0] == fs[0]
  {
    var i :| 0 <= i < |fs| && fs[i] == es[0];
    var j :| 0 <= j < |es| && es[j] == fs[0];
    if i > 0 && j > 0 {
      LessIsTransitive(es[0].name, fs[0].name, es[0].name);
      LessIsIrreflexive(es[0].name);
    }
  }

  lemma RestLists(es: seq<Entry>, hashes: map<Bytes, Bytes>)
    requires Lists(es, hashes) && es != []
    ensures Lists(es[1..], hashes - {es[0].name})
  {
    var rest := hashes - {es[0].name};
    forall i | 0 <= i < |es[1..]| ensures es[1..][i].name in rest && rest[es[1..][i].name] == es[1..][i].hash {
      LessIsIrreflexive(es[0].name);
      assert Less(es[0].name, es[i + 1].name);
    }
    forall name | name in rest ensures Entry(name, rest[name]) in es[1..] {
      var i :| 0 <= i < |es| && es[i] == Entry(name, hashes[name]);
      assert es[1..][i - 1] == es[i];
    }
  }

  lemma EmptyTogether(es: seq<Entry>, fs: seq<Entry>, hashes: map<Bytes, Bytes>)
    requires Lists(es, hashes) && Lists(fs, hashes)
    ensures es == [] <==> fs == []
  {
    assert es != [] ==> es[0].name in hashes;
    assert fs != [] ==> fs[0].name in hashes;
  }

  /** A map has one list. */
  lemma {:induction false} ListIsUnique(es: seq<Entry>, fs: seq<Entry>, hashes: map<Bytes, Bytes>)
    requires Lists(es, hashes) && Lists(fs, hashes)
    ensures es == fs
  {
    EmptyTogether(es, fs, hashes);
    if es != [] {
      SameFirst(es, fs, hashes);
      RestLists(es, hashes);
      RestLists(fs, hashes);
      ListIsUnique(es[1..], fs[1..], hashes - {es[0].name});
      SameWhole(es, fs);
    }
  }

  lemma SameWhole(es: seq<Entry>, fs: seq<Entry>)
    requires es != [] && fs != [] && es[0] == fs[0] && es[1..] == fs[1..]
    ensures es == fs
  {
    assert es == [es[0]] + es[1..] && fs == [fs[0]] + fs[1..];
  }

  /** Two archives are hashed from the same bytes exactly when they hold the same files with the same hashes. */
  lemma DigestIdentifiesFiles(es: seq<Entry>, a: map<Bytes, Bytes>, fs: seq<Entry>, b: map<Bytes, Bytes>)
    requires Lists(es, a) && Lists(fs, b)
    requires (forall i :: 0 <= i < |es| ==> IsEntry(es[i])) && (forall i :: 0 <= i < |fs| ==> IsEntry(fs[i]))
    ensures ArchiveBytes(es) == ArchiveBytes(fs) <==> a == b
  {
    if ArchiveBytes(es) == ArchiveBytes(fs) {
      ArchiveIsUnambiguous(es, fs);
      forall name | name in a ensures name in b && b[name] == a[name] {
        assert Entry(name, a[name]) in es;
      }
      forall name | name in b ensures name in a {
        assert Entry(name, b[name]) in es;
      }
      assert a == b;
    } else if a == b {
      ListIsUnique(es, fs, a);
    }
  }

  /** The entries in the order of the names. */
  function EntriesOf(hashes: map<Bytes, Bytes>, names: seq<Bytes>): (es: seq<Entry>)
    requires forall i :: 0 <= i < |names| ==> names[i] in hashes
    ensures |es| == |names| && forall i :: 0 <= i < |es| ==> es[i] == Entry(names[i], hashes[names[i]])
  {
    seq(|names|, i requires 0 <= i < |names| => Entry(names[i], hashes[names[i]]))
  }

  /** The loop over the sorted names. */
  method WriteArchive(hashes: map<Bytes, Bytes>, names: seq<Bytes>) returns (out: Bytes)
    requires forall i, j :: 0 <= i < j < |names| ==> Less(names[i], names[j])
    requires forall name :: name in hashes <==> name in names
    requires forall name :: name in hashes ==> IsEntry(Entry(name, hashes[name]))
    ensures Lists(EntriesOf(hashes, names), hashes) && out == ArchiveBytes(EntriesOf(hashes, names))
  {
    ghost var es := EntriesOf(hashes, names);
    out := [];
    for i := 0 to |names|
      invariant out == ArchiveBytes(es[..i])
    {
      PrefixGrows(es, i);
      out := WriteEntry(out, names[i], hashes[names[i]]);
    }
    assert es[..|names|] == es;
    NamesAreListed(hashes, names, es);
  }

  lemma PrefixGrows(es: seq<Entry>, i: nat)
    requires i < |es| && forall j :: 0 <= j < |es| ==> IsEntry(es[j])
    ensures ArchiveBytes(es[..i + 1]) == ArchiveBytes(es[..i]) + EntryBytes(es[i])
  {
    assert es[..i + 1] == es[..i] + [es[i]];
    OneMoreEntry(es[..i], es[i]);
  }

  method WriteEntry(before: Bytes, name: Bytes, hash: Bytes) returns (out: Bytes)
    requires IsEntry(Entry(name, hash))
    ensures out == before + EntryBytes(Entry(name, hash))
  {
    out := before + BigEndian(|name|, 8);
    out := out + name;
    out := out + hash;
  }

  lemma OneMoreEntry(es: seq<Entry>, e: Entry)
    requires (forall i :: 0 <= i < |es| ==> IsEntry(es[i])) && IsEntry(e)
    ensures ArchiveBytes(es + [e]) == ArchiveBytes(es) + EntryBytes(e)
  {
  }

  lemma NamesAreListed(hashes: map<Bytes, Bytes>, names: seq<Bytes>, es: seq<Entry>)
    requires forall i, j :: 0 <= i < j < |names| ==> Less(names[i], names[j])
    requires forall name :: name in hashes <==> name in names
    requires |es| == |names| && forall j :: 0 <= j < |es| ==> es[j] == Entry(names[j], hashes[names[j]])
    ensures Lists(es, hashes)
  {
  }
}
