/**
 The interrupt-affinity script's CPU lists: expanding "0-3,8", taking the complement of
 the isolated CPUs, and compressing the result back into a list of ranges.
 */
module CpuList {
  import opened Words

  // ---------- ranges ----------

  /** A range a-b, both ends included; a > b is empty. */
  datatype Range = Range(lo: nat, hi: nat)

  predicate InRange(x: nat, r: Range) { r.lo <= x <= r.hi }

  function Interval(r: Range): set<nat> {
    set x: nat | r.lo <= x <= r.hi && InRange(x, r)
  }

  predicate Covered(x: nat, rs: seq<Range>) {
    exists k :: 0 <= k < |rs| && InRange(x, rs[k])
  }

  predicate StrictlyIncreasing(l: seq<nat>) {
    forall i, j :: 0 <= i < j < |l| ==> l[i] < l[j]
  }

  /** Non-empty ranges, in ascending order, with at least one number between neighbours. */
  predicate Canonical(rs: seq<Range>) {
    && (forall k :: 0 <= k < |rs| ==> rs[k].lo <= rs[k].hi)
    && (forall i, k :: 0 <= i < k < |rs| ==> rs[i].hi + 1 < rs[k].lo)
  }

  /** The compressor's loop state: finished ranges, and the one being extended. */
  datatype Scan = Scan(done: seq<Range>, start: nat, prev: nat)

  function ScanList(l: seq<nat>): Scan
    requires l != []
  {
    if |l| == 1 then Scan([], l[0], l[0])
    else
      var n := |l| - 1;
      var st := ScanList(l[..n]);
      if l[n] == st.prev + 1 then st.(prev := l[n])
      else Scan(st.done + [Range(st.start, st.prev)], l[n], l[n])
  }

  function RangesOf(l: seq<nat>): seq<Range> {
    if l == [] then [] else ScanList(l).done + [Range(ScanList(l).start, ScanList(l).prev)]
  }

  method CompressRanges(l: seq<nat>) returns (ranges: seq<Range>)
    ensures ranges == RangesOf(l)
  {
    ranges := [];
    if l == [] { return; }
    var start, prev := l[0], l[0];
    for i := 1 to |l|
      invariant Scan(ranges, start, prev) == ScanList(l[..i])
    {
      var x := l[i];
      assert l[..i + 1][..i] == l[..i];
      if x == prev + 1 {
        prev := x;
        continue;
      }
      ranges := ranges + [Range(start, prev)];
      start, prev := x, x;
    }
    assert l[..|l|] == l;
    ranges := ranges + [Range(start, prev)];
  }

  lemma CoveredSnoc(x: nat, rs: seq<Range>, r: Range)
    ensures Covered(x, rs + [r]) <==> Covered(x, rs) || InRange(x, r)
  {
    if Covered(x, rs) {
      var k :| 0 <= k < |rs| && InRange(x, rs[k]);
      assert (rs + [r])[k] == rs[k];
    }
    if InRange(x, r) {
      assert (rs + [r])[|rs|] == r;
    }
  }

  lemma CanonicalSnoc(rs: seq<Range>, r: Range)
    requires Canonical(rs) && r.lo <= r.hi && forall i :: 0 <= i < |rs| ==> rs[i].hi + 1 < r.lo
    ensures Canonical(rs + [r])
  {
  }

  /** The scan so far, for a strictly increasing list. */
  ghost predicate ScanOk(l: seq<nat>, st: Scan) {
    && l != [] && st.start <= st.prev && st.prev == l[|l| - 1]
    && Canonical(st.done + [Range(st.start, st.prev)])
    && forall x: nat :: x in l <==> Covered(x, st.done) || InRange(x, Range(st.start, st.prev))
  }

  lemma {:induction false} ScanIsOk(l: seq<nat>)
    requires l != [] && StrictlyIncreasing(l)
    ensures ScanOk(l, ScanList(l))
  {
    if |l| > 1 {
      var n := |l| - 1;
      ScanIsOk(l[..n]);
      ScanStep(l, ScanList(l[..n]));
    }
  }

  lemma ScanStep(l: seq<nat>, st: Scan)
    requires |l| > 1 && StrictlyIncreasing(l) && ScanOk(l[..|l| - 1], st)
    ensures var x := l[|l| - 1];
            ScanOk(l, if x == st.prev + 1 then st.(prev := x) else Scan(st.done + [Range(st.start, st.prev)], x, x))
  {
    var n := |l| - 1;
    var x, r := l[n], Range(st.start, st.prev);
    assert l == l[..n] + [x];
    assert st.prev < x;
    var all := st.done + [r];
    assert all[|st.done|] == r;
    assert st.done == all[..|st.done|];
    forall k | 0 <= k < |st.done|
      ensures st.done[k].lo <= st.done[k].hi && st.done[k].hi + 1 < r.lo
    {
      assert all[k] == st.done[k];
    }
    forall i, k | 0 <= i < k < |st.done|
      ensures st.done[i].hi + 1 < st.done[k].lo
    {
      assert all[i] == st.done[i] && all[k] == st.done[k];
    }
    assert Canonical(st.done);
    if x == st.prev + 1 {
      CanonicalSnoc(st.done, Range(st.start, x));
    } else {
      CanonicalSnoc(all, Range(x, x));
      forall y: nat
        ensures y in l <==> Covered(y, all) || InRange(y, Range(x, x))
      {
        CoveredSnoc(y, st.done, r);
      }
    }
  }

  /** Compressing is exact and canonical: the ranges cover the list and nothing else. */
  lemma RangesAreCanonical(l: seq<nat>)
    requires StrictlyIncreasing(l)
    ensures Canonical(RangesOf(l))
    ensures forall x: nat :: x in l <==> Covered(x, RangesOf(l))
  {
    if l != [] {
      ScanIsOk(l);
      var st := ScanList(l);
      forall x: nat
        ensures x in l <==> Covered(x, RangesOf(l))
      {
        CoveredSnoc(x, st.done, Range(st.start, st.prev));
      }
    }
  }

  // ---------- no list of ranges is shorter ----------

  ghost predicate SameCover(rs: seq<Range>, qs: seq<Range>) {
    forall x: nat :: Covered(x, rs) <==> Covered(x, qs)
  }

  /** For each of the first m ranges, a range of qs that holds its start. */
  lemma {:induction false} StartsLandIn(rs: seq<Range>, qs: seq<Range>, m: nat) returns (js: seq<nat>)
    requires Canonical(rs) && SameCover(rs, qs) && m <= |rs|
    ensures |js| == m
    ensures forall i :: 0 <= i < m ==> js[i] < |qs| && InRange(rs[i].lo, qs[js[i]])
  {
    if m == 0 {
      js := [];
    } else {
      js := StartsLandIn(rs, qs, m - 1);
      assert InRange(rs[m - 1].lo, rs[m - 1]);
      assert Covered(rs[m - 1].lo, qs);
      var j :| 0 <= j < |qs| && InRange(rs[m - 1].lo, qs[j]);
      js := js + [j];
    }
  }

  lemma {:induction false} DistinctBelow(js: seq<nat>, n: nat)
    requires forall i :: 0 <= i < |js| ==> js[i] < n
    requires forall i, k :: 0 <= i < k < |js| ==> js[i] != js[k]
    ensures |js| <= n
    decreases n
  {
    if js == [] {
    } else {
      assert js[0] < n;
      if n - 1 in js {
        var p :| 0 <= p < |js| && js[p] == n - 1;
        var rest := js[..p] + js[p + 1..];
        assert forall i :: 0 <= i < |rest| ==> rest[i] == js[if i < p then i else i + 1];
        DistinctBelow(rest, n - 1);
      } else {
        DistinctBelow(js, n - 1);
      }
    }
  }

  /** The number just below the start of a canonical range is never covered. */
  lemma GapBelow(rs: seq<Range>, k: nat)
    requires Canonical(rs) && 0 < k < |rs|
    ensures rs[k].lo > 0 && !Covered(rs[k].lo - 1, rs)
  {
    assert rs[k - 1].hi + 1 < rs[k].lo;
    forall t | 0 <= t < |rs|
      ensures !InRange(rs[k].lo - 1, rs[t])
    {
      if t > k { assert rs[k].hi + 1 < rs[t].lo; }
    }
  }

  lemma CanonicalIsShortest(rs: seq<Range>, qs: seq<Range>)
    requires Canonical(rs) && SameCover(rs, qs)
    ensures |rs| <= |qs|
  {
    var js := StartsLandIn(rs, qs, |rs|);
    forall i, k | 0 <= i < k < |js|
      ensures js[i] != js[k]
    {
      if js[i] == js[k] {
        assert rs[i].lo <= rs[i].hi && rs[i].hi + 1 < rs[k].lo;
        assert InRange(rs[k].lo - 1, qs[js[k]]);
        assert Covered(rs[k].lo - 1, qs);
        GapBelow(rs, k);
      }
    }
    DistinctBelow(js, |qs|);
  }

  // ---------- text ----------

  function Digit(d: nat): char
    requires d < 10
  {
    (('0' as int) + d) as char
  }

  predicate IsDigit(c: char) { '0' <= c <= '9' }

  function Decimal(n: nat): (s: string)
    ensures |s| > 0 && forall i :: 0 <= i < |s| ==> IsDigit(s[i])
  {
    if n < 10 then [Digit(n)] else Decimal(n / 10) + [Digit(n % 10)]
  }

  function DigitValue(c: char): nat
    requires IsDigit(c)
  {
    c as int - '0' as int
  }

  function ValueOf(s: string): nat
    requires forall i :: 0 <= i < |s| ==> IsDigit(s[i])
  {
    if s == [] then 0 else 10 * ValueOf(s[..|s| - 1]) + DigitValue(s[|s| - 1])
  }

  function ParseNat(s: string): Option<nat> {
    if |s| > 0 && forall i :: 0 <= i < |s| ==> IsDigit(s[i]) then Some(ValueOf(s)) else None
  }

  lemma {:induction false} DecimalRoundTrip(n: nat)
    ensures ParseNat(Decimal(n)) == Some(n)
  {
    if n < 10 {
      var s := Decimal(n);
      assert s[..|s| - 1] == [] && s[|s| - 1] == Digit(n);
      assert ValueOf(s) == DigitValue(Digit(n));
    } else {
      DecimalRoundTrip(n / 10);
      assert Decimal(n)[..|Decimal(n)| - 1] == Decimal(n / 10);
      assert Decimal(n)[|Decimal(n)| - 1] == Digit(n % 10);
    }
  }

  function Split(s: string, c: char): (parts: seq<string>)
    ensures |parts| >= 1
  {
    if s == [] then [[]]
    else
      var rest := Split(s[1..], c);
      if s[0] == c then [[]] + rest else [[s[0]] + rest[0]] + rest[1..]
  }

  function Join(parts: seq<string>, c: char): string
    requires |parts| >= 1
  {
    if |parts| == 1 then parts[0] else parts[0] + [c] + Join(parts[1..], c)
  }

  lemma {:induction false} SplitWord(w: string, c: char)
    requires c !in w
    ensures Split(w, c) == [w]
  {
    if w == [] {
    } else {
      SplitWord(w[1..], c);
      assert [w[0]] + w[1..] == w;
    }
  }

  lemma {:induction false} SplitFirst(w: string, c: char, t: string)
    requires c !in w
    ensures Split(w + [c] + t, c) == [w] + Split(t, c)
  {
    var s := w + [c] + t;
    if w == [] {
      assert s[1..] == t;
    } else {
      SplitFirst(w[1..], c, t);
      assert s[1..] == w[1..] + [c] + t;
      assert [w[0]] + w[1..] == w;
    }
  }

  lemma {:induction false} SplitJoin(parts: seq<string>, c: char)
    requires |parts| >= 1 && forall i :: 0 <= i < |parts| ==> c !in parts[i]
    ensures Split(Join(parts, c), c) == parts
  {
    if |parts| == 1 {
      SplitWord(parts[0], c);
    } else {
      SplitJoin(parts[1..], c);
      SplitFirst(parts[0], c, Join(parts[1..], c));
    }
  }

  function RenderRange(r: Range): string {
    if r.lo == r.hi then Decimal(r.lo) else Decimal(r.lo) + ['-'] + Decimal(r.hi)
  }

  /** A part with a dash must have exactly one; anything else is an error, as `int` raises. */
  function ParseRange(part: string): Option<Range> {
    if '-' in part then
      var ends := Split(part, '-');
      if |ends| == 2 && ParseNat(ends[0]).Some? && ParseNat(ends[1]).Some? then
        Some(Range(ParseNat(ends[0]).value, ParseNat(ends[1]).value))
      else None
    else if ParseNat(part).Some? then Some(Range(ParseNat(part).value, ParseNat(part).value))
    else None
  }

  lemma DigitsOnly(n: nat)
    ensures '-' !in Decimal(n) && ',' !in Decimal(n)
  {
  }

  lemma RangeRoundTrip(r: Range)
    ensures ParseRange(RenderRange(r)) == Some(r)
    ensures ',' !in RenderRange(r)
  {
    DigitsOnly(r.lo);
    DigitsOnly(r.hi);
    DecimalRoundTrip(r.lo);
    DecimalRoundTrip(r.hi);
    if r.lo != r.hi {
      SplitFirst(Decimal(r.lo), '-', Decimal(r.hi));
      SplitWord(Decimal(r.hi), '-');
      assert RenderRange(r)[|Decimal(r.lo)|] == '-';
    }
  }

  function ParseRanges(parts: seq<string>): Option<seq<Range>> {
    if parts == [] then Some([])
    else
      var front, last := ParseRanges(parts[..|parts| - 1]), ParseRange(parts[|parts| - 1]);
      if front.Some? && last.Some? then Some(front.value + [last.value]) else None
  }

  function Rendered(rs: seq<Range>): (parts: seq<string>)
    ensures |parts| == |rs|
  {
    seq(|rs|, k requires 0 <= k < |rs| => RenderRange(rs[k]))
  }

  /** The compressed text; no CPUs give an empty line. */
  function CompressText(l: seq<nat>): string {
    if l == [] then "" else Join(Rendered(RangesOf(l)), ',')
  }

  function ExpandText(s: string): Option<seq<Range>> {
    ParseRanges(Split(s, ','))
  }

  lemma ParseSnoc(parts: seq<string>, part: string)
    ensures ParseRanges(parts + [part])
         == var front, last := ParseRanges(parts), ParseRange(part);
            if front.Some? && last.Some? then Some(front.value + [last.value]) else None
    ensures ParseRanges([]) == Some([])
  {
    assert (parts + [part])[..|parts|] == parts;
  }

  lemma {:induction false} ParseRendered(rs: seq<Range>)
    ensures ParseRanges(Rendered(rs)) == Some(rs)
    ensures forall k :: 0 <= k < |rs| ==> ',' !in Rendered(rs)[k]
  {
    hide ParseRange, RenderRange, ParseRanges;
    ParseSnoc([], "");
    if rs == [] {
      assert Rendered(rs) == [];
    } else {
      var n := |rs| - 1;
      ParseRendered(rs[..n]);
      RangeRoundTrip(rs[n]);
      ParseSnoc(Rendered(rs[..n]), RenderRange(rs[n]));
      assert Rendered(rs) == Rendered(rs[..n]) + [RenderRange(rs[n])];
      assert rs == rs[..n] + [rs[n]];
    }
  }

  /** The text parses back to the ranges exactly when there is at least one CPU. */
  lemma TextRoundTripIff(l: seq<nat>)
    ensures ExpandText(CompressText(l)) == Some(RangesOf(l)) <==> l != []
  {
    if l != [] {
      ParseRendered(RangesOf(l));
      SplitJoin(Rendered(RangesOf(l)), ',');
    } else {
      EmptyTextFails();
    }
  }

  lemma SmallDecimals(t: nat, u: nat)
    requires t < 10 && u < 10
    ensures Decimal(u) == [('0' as int + u) as char]
    ensures t > 0 ==> Decimal(10 * t + u) == [('0' as int + t) as char, ('0' as int + u) as char]
  {
  }

  lemma TwoParts(x: string, y: string, r: Range, q: Range)
    requires ',' !in x && ',' !in y && ParseRange(x) == Some(r) && ParseRange(y) == Some(q)
    ensures ExpandText(x + [','] + y) == Some([r, q])
  {
    hide ParseRange, ParseRanges, Split;
    SplitFirst(x, ',', y);
    SplitWord(y, ',');
    ParseSnoc([], x);
    ParseSnoc([x], y);
    assert [] + [x] == [x] && [x] + [y] == [x, y];
    assert [] + [r] == [r] && [r] + [q] == [r, q];
  }

  /** A text in this notation. */
  lemma ReadsUsualNotation()
    ensures ExpandText("0-3,18") == Some([Range(0, 3), Range(18, 18)])
    ensures RenderRange(Range(0, 3)) == "0-3" && RenderRange(Range(18, 18)) == "18"
  {
    hide Decimal, ParseRange, ExpandText;
    SmallDecimals(1, 0);
    SmallDecimals(1, 3);
    SmallDecimals(1, 8);
    assert ['0'] + ['-'] + ['3'] == "0-3" && ['1', '8'] == "18";
    RangeRoundTrip(Range(0, 3));
    RangeRoundTrip(Range(18, 18));
    TwoParts("0-3", "18", Range(0, 3), Range(18, 18));
    assert "0-3" + [','] + "18" == "0-3,18";
  }

  lemma EmptyTextFails()
    ensures ExpandText("") == None
  {
  }

  // ---------- expanding to a sorted list ----------

  /** The set of numbers covered. */
  function Members(rs: seq<Range>): set<nat> {
    if rs == [] then {}
    else Members(rs[..|rs| - 1]) + Interval(rs[|rs| - 1])
  }

  lemma {:induction false} MembersAreCovered(rs: seq<Range>)
    ensures forall x: nat :: x in Members(rs) <==> Covered(x, rs)
  {
    if rs == [] {
    } else {
      var n := |rs| - 1;
      MembersAreCovered(rs[..n]);
      assert rs == rs[..n] + [rs[n]];
      forall x: nat
        ensures x in Members(rs) <==> Covered(x, rs)
      {
        CoveredSnoc(x, rs[..n], rs[n]);
      }
    }
  }

  /** The sorted list of a set. */
  ghost predicate IsSortedListOf(l: seq<nat>, s: set<nat>) {
    StrictlyIncreasing(l) && forall x :: x in l <==> x in s
  }

  method Expand(s: string) returns (r: Option<seq<nat>>)
    ensures r.None? <==> ExpandText(s).None?
    ensures r.Some? ==> IsSortedListOf(r.value, Members(ExpandText(s).value))
  {
    var parts := Split(s, ',');
    var out: set<nat> := {};
    for k := 0 to |parts|
      invariant ParseRanges(parts[..k]).Some? && out == Members(ParseRanges(parts[..k]).value)
    {
      assert parts[..k + 1][..k] == parts[..k];
      var range := ParseRange(parts[k]);
      if range.None? {
        ParseFails(parts, k);
        return None;
      }
      ghost var before := ParseRanges(parts[..k]).value;
      assert (before + [range.value])[..|before|] == before;
      out := out + Interval(range.value);
    }
    assert parts[..|parts|] == parts;
    var l := SortSet(out);
    r := Some(l);
  }

  lemma {:induction false} ParseFails(parts: seq<string>, k: nat)
    requires k < |parts| && ParseRange(parts[k]).None?
    ensures ParseRanges(parts).None?
  {
    if k < |parts| - 1 {
      ParseFails(parts[..|parts| - 1], k);
    }
  }

  predicate IsLeast(m: nat, s: set<nat>) {
    m in s && forall x :: x in s ==> m <= x
  }

  /** A non-empty set has a least element. */
  lemma {:induction false} LeastExists(s: set<nat>)
    requires s != {}
    ensures exists m :: IsLeast(m, s)
    decreases |s|
  {
    var y :| y in s;
    var rest := s - {y};
    if rest == {} {
      assert s == {y};
      assert IsLeast(y, s);
    } else {
      LeastExists(rest);
      var m :| IsLeast(m, rest);
      LeastOfTwo(s, y, m);
    }
  }

  lemma LeastOfTwo(s: set<nat>, y: nat, m: nat)
    requires y in s && IsLeast(m, s - {y})
    ensures IsLeast(if m <= y then m else y, s)
  {
    forall x | x in s
      ensures (if m <= y then m else y) <= x
    {
      if x != y { assert x in s - {y}; }
    }
  }

  lemma AppendIncreasing(l: seq<nat>, x: nat)
    requires StrictlyIncreasing(l) && forall y :: y in l ==> y < x
    ensures StrictlyIncreasing(l + [x])
  {
    forall i, j | 0 <= i < j < |l + [x]|
      ensures (l + [x])[i] < (l + [x])[j]
    {
      if j == |l| { assert l[i] in l; }
    }
  }

  method SortSet(s: set<nat>) returns (l: seq<nat>)
    ensures IsSortedListOf(l, s)
  {
    hide StrictlyIncreasing;
    l := [];
    var rest := s;
    EmptyIncreasing();
    while rest != {}
      invariant rest <= s
      invariant StrictlyIncreasing(l)
      invariant forall x :: x in l <==> x in s && x !in rest
      invariant forall y, x :: y in l && x in rest ==> y < x
      decreases |rest|
    {
      LeastExists(rest);
      var m :| IsLeast(m, rest);
      AppendIncreasing(l, m);
      l := l + [m];
      rest := rest - {m};
    }
  }

  lemma EmptyIncreasing()
    ensures StrictlyIncreasing([])
  {
  }

  lemma SameMembersEmpty(k: seq<nat>, l: seq<nat>)
    requires forall x :: x in k <==> x in l
    ensures k == [] <==> l == []
  {
    if k != [] { assert k[0] in l; }
    if l != [] { assert l[0] in k; }
  }

  lemma {:induction false} SortedListIsUnique(k: seq<nat>, l: seq<nat>)
    requires StrictlyIncreasing(k) && StrictlyIncreasing(l) && forall x :: x in k <==> x in l
    ensures k == l
  {
    SameMembersEmpty(k, l);
    if k == [] {
    } else {
      assert k[|k| - 1] in l;
      var a, b := k[|k| - 1], l[|l| - 1];
      assert b in k;
      assert a == b;
      var k', l' := k[..|k| - 1], l[..|l| - 1];
      forall x
        ensures x in k' <==> x in l'
      {
        FrontMembers(k, x);
        FrontMembers(l, x);
      }
      SortedListIsUnique(k', l');
      assert k == k' + [a] && l == l' + [b];
    }
  }

  lemma FrontMembers(l: seq<nat>, x: nat)
    requires l != [] && StrictlyIncreasing(l)
    ensures x in l[..|l| - 1] <==> x in l && x != l[|l| - 1]
  {
  }

  /** Whatever sorted list `expand` returns for the compressed text, it is the list itself. */
  lemma CompressThenExpand(l: seq<nat>, back: seq<nat>)
    requires l != [] && StrictlyIncreasing(l)
    requires IsSortedListOf(back, Members(RangesOf(l)))
    ensures ExpandText(CompressText(l)) == Some(RangesOf(l))
    ensures back == l
  {
    TextRoundTripIff(l);
    RangesAreCanonical(l);
    MembersAreCovered(RangesOf(l));
    SortedListIsUnique(back, l);
  }

  // ---------- the complement ----------

  method Complement(cpuCount: nat, isol: seq<nat>) returns (rest: seq<nat>)
    ensures StrictlyIncreasing(rest)
    ensures forall c: nat :: c in rest <==> c < cpuCount && c !in isol
  {
    rest := [];
    for c := 0 to cpuCount
      invariant StrictlyIncreasing(rest)
      invariant forall x: nat :: x in rest <==> x < c && x !in isol
    {
      if c !in isol {
        AppendIncreasing(rest, c);
        rest := rest + [c];
      }
    }
  }

  predicate AllIsolated(cpuCount: nat, isol: set<nat>) {
    forall c: nat :: c < cpuCount ==> c in isol
  }

  /**
   The affinity text for a machine: it reads back to exactly the CPUs that are not
   isolated, so the two lists partition the machine; it is empty iff all are isolated.
   */
  method AffinityText(cpuCount: nat, isolText: string) returns (text: Option<string>)
    ensures text.None? <==> ExpandText(isolText).None?
    ensures text.Some? ==>
      var isol := Members(ExpandText(isolText).value);
      && (text.value == "" <==> AllIsolated(cpuCount, isol))
      && (text.value != "" ==>
            && ExpandText(text.value).Some?
            && Canonical(ExpandText(text.value).value)
            && forall c: nat :: Covered(c, ExpandText(text.value).value) <==> c < cpuCount && c !in isol)
  {
    var isol := Expand(isolText);
    if isol.None? {
      return None;
    }
    var rest := Complement(cpuCount, isol.value);
    text := Some(CompressText(rest));
    TextRoundTripIff(rest);
    RangesAreCanonical(rest);
    ghost var isolated := Members(ExpandText(isolText).value);
    if rest != [] {
      EmptyTextFails();
      assert rest[0] in rest;
      assert rest[0] < cpuCount && rest[0] !in isolated;
      assert !AllIsolated(cpuCount, isolated);
    } else {
      assert forall c: nat :: c < cpuCount ==> c !in rest;
      assert AllIsolated(cpuCount, isolated);
    }
  }
}
