/** Boyer-Moore search (deps/klib/kstring.c): the bad-character and good-suffix tables, and
    the search that shifts by the larger of the two. */
module BoyerMoore {

  type byte = x: nat | x < 256
  type Text = seq<byte>

  /** The pattern occurs in the text at j. */
  ghost predicate Occurs(text: Text, pat: Text, j: int) {
    && 0 <= j <= |text| - |pat|
    && forall k :: 0 <= k < |pat| ==> pat[k] == text[j + k]
  }

  // ------------------------------------------------------------ what the tables mean

  /** s is the length of the longest common suffix of pat[..i + 1] and pat. */
  ghost predicate IsSuff(pat: Text, i: int, s: int) {
    && 0 <= i < |pat| && 0 <= s <= i + 1
    && (forall q :: i - s < q <= i ==> pat[q] == pat[q + |pat| - 1 - i])
    && (s <= i ==> pat[i - s] != pat[|pat| - 1 - s])
  }

  /** A shift by d agrees with itself on the part behind position i. */
  ghost predicate Agrees(pat: Text, i: int, d: int)
    requires 0 <= i < |pat| && d >= 1
  {
    forall k :: i < k < |pat| && k >= d ==> pat[k - d] == pat[k]
  }

  /** A shift by d that a mismatch at position i, with everything behind it matched, does not
      rule out. */
  ghost predicate Admissible(pat: Text, i: int, d: int)
    requires 0 <= i < |pat| && d >= 1
  {
    Agrees(pat, i, d) && (d <= i ==> pat[i - d] != pat[i])
  }

  /** The good-suffix entry: the least shift that is not ruled out. */
  ghost predicate GoodSuffix(pat: Text, i: int, d: int)
    requires 0 <= i < |pat|
  {
    && 1 <= d <= |pat| && Admissible(pat, i, d)
    && forall d' :: 1 <= d' < d ==> !Admissible(pat, i, d')
  }

  /** The bad-character entry: the distance from the last position to the last earlier
      occurrence of c, or the pattern's length when there is none. */
  ghost predicate BadChar(pat: Text, c: byte, d: int)
    requires |pat| > 0
  {
    && 1 <= d <= |pat|
    && (d < |pat| ==> pat[|pat| - 1 - d] == c)
    && forall q :: |pat| - 1 - d < q < |pat| - 1 && 0 <= q ==> pat[q] != c
  }

  ghost predicate TablesOk(pat: Text, gs: seq<int>, bc: seq<int>)
    requires |pat| > 0
  {
    && |gs| == |pat| && |bc| == 256
    && (forall i :: 0 <= i < |pat| ==> GoodSuffix(pat, i, gs[i]))
    && (forall c: byte :: BadChar(pat, c, bc[c]))
  }

  // ------------------------------------------------------------ no shift skips a match

  /** Everything behind position i matched at j, position i did not. */
  ghost predicate MismatchAt(text: Text, pat: Text, j: int, i: int) {
    && 0 <= i < |pat| && 0 <= j <= |text| - |pat|
    && pat[i] != text[j + i]
    && forall k :: i < k < |pat| ==> pat[k] == text[j + k]
  }

  lemma {:induction false} LaterMatchIsAdmissible(text: Text, pat: Text, j: int, i: int, d: int)
    requires MismatchAt(text, pat, j, i) && d >= 1 && Occurs(text, pat, j + d)
    ensures Admissible(pat, i, d)
  {
    forall k | i < k < |pat| && k >= d ensures pat[k - d] == pat[k] {
      assert pat[k - d] == text[j + d + (k - d)];
    }
    if d <= i { assert pat[i - d] == text[j + d + (i - d)]; }
  }

  lemma {:induction false} LaterMatchHasChar(text: Text, pat: Text, j: int, i: int, d: int, b: int)
    requires MismatchAt(text, pat, j, i) && d >= 1 && Occurs(text, pat, j + d)
    requires BadChar(pat, text[j + i], b)
    ensures d >= b - |pat| + 1 + i
  {
    if d <= i { assert pat[i - d] == text[j + d + (i - d)]; }
  }

  /** The larger of the two shifts is positive and passes over no occurrence. */
  lemma {:induction false} ShiftIsSafe(text: Text, pat: Text, gs: seq<int>, bc: seq<int>, j: int, i: int)
    requires |pat| > 0 && TablesOk(pat, gs, bc) && MismatchAt(text, pat, j, i)
    ensures var b := bc[text[j + i]] - |pat| + 1 + i;
      var shift := if b < gs[i] then gs[i] else b;
      1 <= shift <= |pat| && forall j' :: j <= j' < j + shift ==> !Occurs(text, pat, j')
  {
    var b := bc[text[j + i]] - |pat| + 1 + i;
    var shift := if b < gs[i] then gs[i] else b;
    assert GoodSuffix(pat, i, gs[i]) && BadChar(pat, text[j + i], bc[text[j + i]]);
    forall j' | j <= j' < j + shift ensures !Occurs(text, pat, j') {
      if j' > j && Occurs(text, pat, j') {
        var c := text[j + i];
        if j' - j < gs[i] { LaterMatchIsAdmissible(text, pat, j, i, j' - j); }
        else { LaterMatchHasChar(text, pat, j, i, j' - j, bc[c]); }
      }
    }
  }

  // ------------------------------------------------------------ suffix lengths and shifts

  lemma {:induction false} SuffUnique(pat: Text, i: int, s: int, s': int)
    requires IsSuff(pat, i, s) && IsSuff(pat, i, s')
    ensures s == s'
  {
  }

  /** A shift past position p is admissible when the pattern's start is a suffix of it. */
  lemma {:induction false} PrefixShift(pat: Text, p: int, d: int, s: int)
    requires 0 <= p < d < |pat| && IsSuff(pat, |pat| - 1 - d, s)
    ensures Admissible(pat, p, d) <==> s == |pat| - d
  {
    var i := |pat| - 1 - d;
    if s == |pat| - d {
      forall k | p < k < |pat| && k >= d ensures pat[k - d] == pat[k] {
        assert pat[k - d] == pat[k - d + |pat| - 1 - i];
      }
    } else {
      var k := |pat| - 1 - s;
      assert pat[k - d] != pat[k];
    }
  }

  /** A shorter shift is admissible when the matched suffix reappears there, preceded by
      something else. */
  lemma {:induction false} InnerShift(pat: Text, p: int, d: int, s: int)
    requires 1 <= d <= p < |pat| && IsSuff(pat, |pat| - 1 - d, s)
    ensures Admissible(pat, p, d) <==> s == |pat| - 1 - p
  {
    var i := |pat| - 1 - d;
    if Admissible(pat, p, d) {
      var t := |pat| - 1 - p;
      forall q | i - t < q <= i ensures pat[q] == pat[q + |pat| - 1 - i] {
        assert pat[(q + d) - d] == pat[q + d];
      }
      assert IsSuff(pat, i, t);
      SuffUnique(pat, i, s, t);
    }
    if s == |pat| - 1 - p {
      forall k | p < k < |pat| && k >= d ensures pat[k - d] == pat[k] {
        assert pat[k - d] == pat[k - d + |pat| - 1 - i];
      }
    }
  }

  ghost predicate SuffOk(pat: Text, suff: seq<int>) {
    |suff| == |pat| && forall i :: 0 <= i < |pat| ==> IsSuff(pat, i, suff[i])
  }

  /** Shift d at position p comes from the suffix lengths by the second table loop. */
  ghost predicate FromSuffix(suff: seq<int>, p: int, d: int) {
    1 <= d < |suff| && |suff| - 1 - suff[|suff| - 1 - d] == p
  }

  /** Shift d is one of the first table loop's: the pattern's start is a suffix. */
  ghost predicate Border(suff: seq<int>, d: int) {
    1 <= d <= |suff| && (d < |suff| ==> suff[|suff| - 1 - d] == |suff| - d)
  }

  ghost predicate LeastBorder(suff: seq<int>, p: int, d: int) {
    p < d && Border(suff, d) && forall d' :: p < d' < d ==> !Border(suff, d')
  }

  ghost predicate LeastFromSuffix(suff: seq<int>, p: int, d: int, low: int) {
    low <= d && FromSuffix(suff, p, d) && forall d' :: low <= d' < d ==> !FromSuffix(suff, p, d')
  }

  /** What the two loops leave in an entry is the least admissible shift. */
  lemma {:induction false} EntryIsGoodSuffix(pat: Text, suff: seq<int>, p: int, d: int)
    requires SuffOk(pat, suff) && 0 <= p < |pat|
    requires LeastFromSuffix(suff, p, d, 1)
      || (LeastBorder(suff, p, d) && forall d' :: 1 <= d' < |pat| ==> !FromSuffix(suff, p, d'))
    ensures GoodSuffix(pat, p, d)
  {
    ShiftAdmissible(pat, suff, p, d);
    forall d' | 1 <= d' < d ensures !Admissible(pat, p, d') {
      ShiftAdmissible(pat, suff, p, d');
    }
  }

  lemma {:induction false} ShiftAdmissible(pat: Text, suff: seq<int>, p: int, d: int)
    requires SuffOk(pat, suff) && 0 <= p < |pat| && 1 <= d <= |pat|
    ensures d <= p ==> (Admissible(pat, p, d) <==> FromSuffix(suff, p, d))
    ensures d > p ==> (Admissible(pat, p, d) <==> Border(suff, d))
    ensures FromSuffix(suff, p, d) && d > p ==> d == p + 1 && Border(suff, d)
  {
    if d < |pat| {
      assert IsSuff(pat, |pat| - 1 - d, suff[|pat| - 1 - d]);
      if d <= p { InnerShift(pat, p, d, suff[|pat| - 1 - d]); } else { PrefixShift(pat, p, d, suff[|pat| - 1 - d]); }
    }
  }

  // ------------------------------------------------------------ filling the tables

  method BadCharTable(pat: Text) returns (bc: array<int>)
    requires |pat| > 0
    ensures bc.Length == 256 && forall c: byte :: BadChar(pat, c, bc[c])
  {
    var m := |pat|;
    bc := new int[256](c => m);
    var i := 0;
    while i < m - 1
      invariant 0 <= i <= m - 1
      invariant forall c: byte :: Seen(pat, i, c, bc[c])
    {
      bc[pat[i]] := m - i - 1;
      i := i + 1;
    }
  }

  /** The entry for c after the first i positions. */
  ghost predicate Seen(pat: Text, i: int, c: byte, d: int)
    requires 0 <= i <= |pat|
  {
    && 1 <= d <= |pat|
    && (d < |pat| ==> |pat| - 1 - d < i && pat[|pat| - 1 - d] == c)
    && forall q :: 0 <= q < i && |pat| - 1 - d < q ==> pat[q] != c
  }

  /** Copying a suffix length from inside the last matched stretch. */
  lemma {:induction false} CopySuff(pat: Text, i: int, f: int, g: int, s: int)
    requires 0 <= g + 1 <= i < f <= |pat| - 2
    requires forall q :: g < q <= f ==> pat[q] == pat[q + |pat| - 1 - f]
    requires IsSuff(pat, i + |pat| - 1 - f, s)
    ensures s < i - g ==> IsSuff(pat, i, s)
    ensures s >= i - g ==> forall q :: g < q <= i ==> pat[q] == pat[q + |pat| - 1 - i]
  {
    var i' := i + |pat| - 1 - f;
    forall q | g < q <= i && i - s < q ensures pat[q] == pat[q + |pat| - 1 - i] {
      var q' := q + |pat| - 1 - f;
      assert pat[q] == pat[q'];
      assert pat[q'] == pat[q' + |pat| - 1 - i'];
    }
    if s < i - g {
      assert pat[i - s] == pat[i - s + |pat| - 1 - f];
    }
  }

  lemma {:induction false} SuffIs(pat: Text, i: int, s: int)
    requires 0 <= i < |pat| && 0 <= s <= i + 1
    requires forall q :: i - s < q <= i ==> pat[q] == pat[q + |pat| - 1 - i]
    requires i - s >= 0 ==> pat[i - s] != pat[i - s + |pat| - 1 - i]
    ensures IsSuff(pat, i, s)
  {
  }

  method Suffixes(pat: Text) returns (suff: array<int>)
    requires |pat| > 0
    ensures SuffOk(pat, suff[..])
  {
    hide IsSuff;
    var m := |pat|;
    suff := new int[m];
    var f, g := 0, m - 1;
    SuffIs(pat, m - 1, m);
    suff[m - 1] := m;
    var i := m - 2;
    while i >= 0
      invariant -1 <= i <= m - 2
      invariant forall q :: i < q < m ==> IsSuff(pat, q, suff[q])
      invariant (g == m - 1 && i == m - 2) || (i < f <= m - 2 && -1 <= g <= f)
      invariant f <= m - 2 && g < f ==> forall q :: g < q <= f ==> pat[q] == pat[q + m - 1 - f]
    {
      if i > g {
        assert IsSuff(pat, i + m - 1 - f, suff[i + m - 1 - f]);
        CopySuff(pat, i, f, g, suff[i + m - 1 - f]);
      }
      if i > g && suff[i + m - 1 - f] < i - g {
        suff[i] := suff[i + m - 1 - f];
      } else {
        if i < g { g := i; }
        f := i;
        while g >= 0 && pat[g] == pat[g + m - 1 - f]
          invariant -1 <= g <= f
          invariant forall q :: g < q <= f ==> pat[q] == pat[q + m - 1 - f]
        {
          g := g - 1;
        }
        SuffIs(pat, f, f - g);
        suff[i] := f - g;
      }
      i := i - 1;
    }
  }

  /** The first loop: at each position the least shift past it that is a border's. */
  method BorderShifts(suff: array<int>) returns (gs: array<int>)
    requires suff.Length > 0 && suff[suff.Length - 1] == suff.Length
    ensures fresh(gs) && gs.Length == suff.Length
    ensures forall p :: 0 <= p < suff.Length ==> LeastBorder(suff[..], p, gs[p])
  {
    var m := suff.Length;
    ghost var su := suff[..];
    gs := new int[m](p => m);
    var j := 0;
    var i := m - 1;
    while i >= 0
      invariant -1 <= i <= m - 1 && 0 <= j < m
      invariant forall p :: 0 <= p < j ==> LeastBorder(su, p, gs[p])
      invariant forall p :: j <= p < m ==> gs[p] == m
      invariant forall d :: j < d < m - 1 - i ==> !Border(su, d)
    {
      if suff[i] == i + 1 {
        assert i < m - 1 ==> Border(su, m - 1 - i);
        while j < m - 1 - i
          invariant 0 <= j < m
          invariant forall p :: 0 <= p < j ==> LeastBorder(su, p, gs[p])
          invariant forall p :: j <= p < m ==> gs[p] == m
          invariant forall d :: j < d < m - 1 - i ==> !Border(su, d)
        {
          if gs[j] == m { gs[j] := m - 1 - i; }
          j := j + 1;
        }
      }
      i := i - 1;
    }
  }

  method GoodSuffixTable(pat: Text, suff: array<int>) returns (gs: array<int>)
    requires |pat| > 0 && SuffOk(pat, suff[..])
    ensures gs.Length == |pat| && forall p :: 0 <= p < |pat| ==> GoodSuffix(pat, p, gs[p])
  {
    hide GoodSuffix, IsSuff;
    var m := |pat|;
    ghost var su := suff[..];
    LastSuff(pat, su);
    gs := BorderShifts(suff);
    var i := 0;
    while i <= m - 2
      invariant 0 <= i <= m - 1 && suff[..] == su
      invariant forall p :: 0 <= p < m ==> Entry(su, p, gs[p], m - i)
    {
      SuffRange(pat, su, i);
      ghost var was := gs[..];
      gs[m - 1 - suff[i]] := m - 1 - i;
      forall p | 0 <= p < m ensures Entry(su, p, gs[p], m - i - 1) { NextEntry(su, p, was[p], i); }
      i := i + 1;
    }
    forall p | 0 <= p < m ensures GoodSuffix(pat, p, gs[p]) {
      assert Entry(su, p, gs[p], 1);
      EntryIsGoodSuffix(pat, su, p, gs[p]);
    }
  }

  lemma {:induction false} LastSuff(pat: Text, suff: seq<int>)
    requires |pat| > 0 && SuffOk(pat, suff)
    ensures suff[|pat| - 1] == |pat|
  {
    assert IsSuff(pat, |pat| - 1, suff[|pat| - 1]);
  }

  lemma {:induction false} SuffRange(pat: Text, suff: seq<int>, i: int)
    requires SuffOk(pat, suff) && 0 <= i < |pat|
    ensures 0 <= suff[i] <= i + 1
  {
    assert IsSuff(pat, i, suff[i]);
  }

  /** Writing the next smaller shift keeps every entry. */
  lemma {:induction false} NextEntry(suff: seq<int>, p: int, d: int, i: int)
    requires 0 <= i <= |suff| - 2 && Entry(suff, p, d, |suff| - i)
    ensures Entry(suff, p, if |suff| - 1 - suff[i] == p then |suff| - 1 - i else d, |suff| - i - 1)
  {
  }

  /** The entry at p once the second loop has written the shifts from low up. */
  ghost predicate Entry(suff: seq<int>, p: int, d: int, low: int) {
    LeastFromSuffix(suff, p, d, low)
        || (LeastBorder(suff, p, d) && forall d' :: low <= d' < |suff| ==> !FromSuffix(suff, p, d'))
  }

  // ------------------------------------------------------------ the search

  method Prepare(pat: Text) returns (gs: array<int>, bc: array<int>)
    requires |pat| > 0
    ensures TablesOk(pat, gs[..], bc[..])
  {
    bc := BadCharTable(pat);
    var suff := Suffixes(pat);
    gs := GoodSuffixTable(pat, suff);
  }

  /** The leftmost occurrence, or -1; the tables may be kept from an earlier search. */
  method Search(text: Text, pat: Text, gs: array<int>, bc: array<int>) returns (at: int)
    requires |pat| > 0 && TablesOk(pat, gs[..], bc[..])
    ensures at == -1 || Occurs(text, pat, at)
    ensures forall j :: 0 <= j < (if at == -1 then |text| + 1 else at) ==> !Occurs(text, pat, j)
  {
    var n, m := |text|, |pat|;
    var j := 0;
    while j <= n - m
      invariant 0 <= j
      invariant forall j' :: 0 <= j' < j ==> !Occurs(text, pat, j')
      decreases n - j
    {
      var i := m - 1;
      while i >= 0 && pat[i] == text[i + j]
        invariant -1 <= i <= m - 1
        invariant forall k :: i < k < m ==> pat[k] == text[j + k]
      {
        i := i - 1;
      }
      if i < 0 { return j; }
      ShiftIsSafe(text, pat, gs[..], bc[..], j, i);
      var max := bc[text[i + j]] - m + 1 + i;
      if max < gs[i] { max := gs[i]; }
      j := j + max;
    }
    return -1;
  }

  method Kmemmem(text: Text, pat: Text) returns (at: int)
    requires |pat| > 0
    ensures at == -1 || Occurs(text, pat, at)
    ensures forall j :: 0 <= j < (if at == -1 then |text| + 1 else at) ==> !Occurs(text, pat, j)
  {
    var gs, bc := Prepare(pat);
    at := Search(text, pat, gs, bc);
  }
}
