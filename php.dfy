/**
 * The few PHP built-ins the WHMCS module relies on, stated over Dafny strings:
 * truthiness and `empty()`, `strpos`/`explode` on one character, `str_replace`,
 * the byte-wise string order used by `ksort`, and `trim`.
 */
module Php {

  /** A value that PHP may give as `null`. */
  datatype Option<+T> = None | Some(value: T)

  /** PHP's truthiness of a string: only "" and "0" are falsy. */
  predicate Falsy(s: string) {
    s == "" || s == "0"
  }

  /** `empty($m[k])` on an array of strings: the key is missing or its value is falsy. */
  predicate Empty(m: map<string, string>, k: string) {
    k !in m || Falsy(m[k])
  }

  function Max(a: int, b: int): int {
    if a < b then b else a
  }

  predicate IsPrefix(p: string, s: string) {
    |p| <= |s| && s[..|p|] == p
  }

  /** `strpos($s, $p) !== false`: p occurs in s as a contiguous piece. */
  predicate Contains(s: string, p: string)
    decreases |s|
  {
    IsPrefix(p, s) || (|s| > 0 && Contains(s[1..], p))
  }

  lemma {:induction false} ContainsInfix(a: string, p: string, b: string)
    ensures Contains(a + p + b, p)
  {
    if a == [] {
      assert a + p + b == p + b;
      assert (p + b)[..|p|] == p;
    } else {
      ContainsInfix(a[1..], p, b);
      assert (a + p + b)[1..] == a[1..] + p + b;
    }
  }

  /** Every slice of s occurs in s. */
  lemma ContainsSlice(s: string, k: nat, n: nat)
    requires k + n <= |s|
    ensures Contains(s, s[k..k + n])
  {
    assert s == s[..k] + s[k..k + n] + s[k + n..];
    ContainsInfix(s[..k], s[k..k + n], s[k + n..]);
  }

  /** `strpos($s, $c)` for a single character: the first index of c in s, or null. */
  function IndexOf(s: string, c: char): (r: Option<nat>)
    ensures r.None? <==> c !in s
    ensures r.Some? ==> r.value < |s| && s[r.value] == c && c !in s[..r.value]
  {
    if s == [] then None
    else if s[0] == c then Some(0)
    else
      match IndexOf(s[1..], c)
      case None => None
      case Some(i) =>
        assert s[..i + 1] == [s[0]] + s[1..][..i];
        Some(i + 1)
  }

  /** `explode($c, $s, 2)` when c occurs in s: the part before the first c and the rest. */
  function SplitFirst(s: string, c: char): (r: (string, string))
    requires c in s
    ensures r.0 + [c] + r.1 == s
    ensures c !in r.0
  {
    var i := IndexOf(s, c).value;
    assert s == s[..i] + [c] + s[i + 1..];
    (s[..i], s[i + 1..])
  }

  /** The split at the first c is the only one whose left part has no c. */
  lemma SplitFirstUnique(s: string, c: char, a: string, b: string)
    requires a + [c] + b == s && c !in a
    ensures SplitFirst(s, c) == (a, b)
  {
    var i := IndexOf(s, c).value;
    assert s[..|a|] == a && s[|a|] == c;
    assert i == |a| by {
      assert s[i] == c && c !in s[..i];
      assert i <= |a| by { assert s[|a|] in s[..|a| + 1]; }
    }
    assert s[i + 1..] == b;
  }

  /**
   * `str_replace($pat, $rep, $s)`: every occurrence of pat, scanning left to
   * right without overlap, is replaced; the inserted text is not scanned again.
   */
  function StrReplace(pat: string, rep: string, s: string): string
    requires |pat| > 0
    decreases |s|
  {
    if |s| < |pat| then s
    else if s[..|pat|] == pat then rep + StrReplace(pat, rep, s[|pat|..])
    else [s[0]] + StrReplace(pat, rep, s[1..])
  }

  /** Text that cannot start an occurrence of pat passes through unchanged. */
  lemma {:induction false} StrReplaceSkips(pat: string, rep: string, a: string, t: string)
    requires |pat| > 0 && pat[0] !in a
    ensures StrReplace(pat, rep, a + t) == a + StrReplace(pat, rep, t)
  {
    if a != [] {
      var s := a + t;
      assert s[0] == a[0] != pat[0];
      if |s| >= |pat| {
        assert s[..|pat|] != pat by { assert s[..|pat|][0] == a[0]; }
        assert s[1..] == a[1..] + t;
        assert StrReplace(pat, rep, s) == [a[0]] + StrReplace(pat, rep, a[1..] + t);
        StrReplaceSkips(pat, rep, a[1..], t);
        assert [a[0]] + (a[1..] + StrReplace(pat, rep, t)) == a + StrReplace(pat, rep, t);
      } else {
        assert StrReplace(pat, rep, s) == s;
        assert StrReplace(pat, rep, t) == t;
      }
    } else {
      assert a + t == t;
    }
  }

  /** The single placeholder of `prefix + pat + suffix` is replaced by rep. */
  lemma {:induction false} StrReplaceTemplate(pat: string, rep: string, prefix: string, suffix: string)
    requires |pat| > 0 && pat[0] !in prefix && pat[0] !in suffix
    ensures StrReplace(pat, rep, prefix + pat + suffix) == prefix + rep + suffix
  {
    var s := pat + suffix;
    assert prefix + pat + suffix == prefix + s;
    StrReplaceSkips(pat, rep, prefix, s);
    assert s[..|pat|] == pat;
    assert s[|pat|..] == suffix;
    assert StrReplace(pat, rep, s) == rep + StrReplace(pat, rep, suffix);
    StrReplaceSkips(pat, rep, suffix, []);
    assert suffix + [] == suffix;
    assert StrReplace(pat, rep, suffix) == suffix;
  }

  /** `strcmp($a, $b) < 0`: byte-wise order, a proper prefix sorts first. */
  predicate StrLess(a: string, b: string)
    decreases |a|
  {
    if a == [] then b != []
    else if b == [] then false
    else if a[0] != b[0] then a[0] < b[0]
    else StrLess(a[1..], b[1..])
  }

  lemma {:induction false} StrLessIrreflexive(a: string)
    ensures !StrLess(a, a)
  {
    if a != [] {
      StrLessIrreflexive(a[1..]);
    }
  }

  lemma {:induction false} StrLessTransitive(a: string, b: string, c: string)
    requires StrLess(a, b) && StrLess(b, c)
    ensures StrLess(a, c)
    decreases |a|
  {
    if a != [] && b != [] && c != [] && a[0] == b[0] && b[0] == c[0] {
      StrLessTransitive(a[1..], b[1..], c[1..]);
    }
  }

  lemma {:induction false} StrLessTotal(a: string, b: string)
    ensures a == b || StrLess(a, b) || StrLess(b, a)
    decreases |a|
  {
    if a != [] && b != [] && a[0] == b[0] {
      StrLessTotal(a[1..], b[1..]);
      if a[1..] == b[1..] {
        assert a == [a[0]] + a[1..] && b == [b[0]] + b[1..];
      }
    }
  }

  /** The characters `trim()` strips by default: space, tab, LF, CR, NUL and vertical tab. */
  predicate IsTrimmable(c: char) {
    c == ' ' || c == '\t' || c == '\n' || c == '\r' || c == '\0' || c as int == 11
  }

  function TrimLeft(s: string): (r: string)
    ensures |r| <= |s| && r == s[|s| - |r|..]
    ensures forall i | 0 <= i < |s| - |r| :: IsTrimmable(s[i])
    ensures r == [] || !IsTrimmable(r[0])
  {
    if s != [] && IsTrimmable(s[0]) then TrimLeft(s[1..]) else s
  }

  function TrimRight(s: string): (r: string)
    ensures |r| <= |s| && r == s[..|r|]
    ensures forall i | |r| <= i < |s| :: IsTrimmable(s[i])
    ensures r == [] || !IsTrimmable(r[|r| - 1])
  {
    if s != [] && IsTrimmable(s[|s| - 1]) then TrimRight(s[..|s| - 1]) else s
  }

  /** r is s with its first k characters and everything after them and r cut, all of which are trimmable. */
  predicate TrimmedAt(s: string, r: string, k: nat) {
    && k + |r| <= |s|
    && r == s[k..k + |r|]
    && (forall i | 0 <= i < k :: IsTrimmable(s[i]))
    && (forall i | k + |r| <= i < |s| :: IsTrimmable(s[i]))
  }

  /**
   * Trimming the left and then the right leaves the slice of s that starts
   * where l starts, and it starts with l's first character.
   */
  lemma TrimmedSlice(s: string, l: string, r: string)
    requires |l| <= |s| && l == s[|s| - |l|..]
    requires forall i | 0 <= i < |s| - |l| :: IsTrimmable(s[i])
    requires |r| <= |l| && r == l[..|r|]
    requires forall i | |r| <= i < |l| :: IsTrimmable(l[i])
    ensures TrimmedAt(s, r, |s| - |l|)
    ensures r == [] || r[0] == l[0]
  {
    var k := |s| - |l|;
    assert r == s[k..k + |r|];
    forall i | k + |r| <= i < |s|
      ensures IsTrimmable(s[i])
    {
      assert s[i] == l[i - k];
    }
  }

  /**
   * `trim($s)`: s without its leading and trailing whitespace. The result is
   * the slice of s that remains once trimmable characters are cut at either
   * end, and it neither starts nor ends with one.
   */
  function Trim(s: string): (r: string)
    ensures r == [] || (!IsTrimmable(r[0]) && !IsTrimmable(r[|r| - 1]))
    ensures exists k: nat :: TrimmedAt(s, r, k)
  {
    var l := TrimLeft(s);
    var r := TrimRight(l);
    TrimmedSlice(s, l, r);
    r
  }

  /** The ends of a trimmed slice, read in s; everything outside it is trimmable. */
  lemma TrimmedAtEnds(s: string, t: string, k: nat)
    requires TrimmedAt(s, t, k)
    ensures |t| > 0 ==> k < |s| && s[k] == t[0] && s[k + |t| - 1] == t[|t| - 1]
    ensures forall i | 0 <= i < |s| && (i < k || k + |t| <= i) :: IsTrimmable(s[i])
  {
  }

  /** The contract of Trim fixes its result: only one trimmed slice has untrimmable ends. */
  lemma TrimUnique(s: string, t: string, k: nat)
    requires TrimmedAt(s, t, k)
    requires t == [] || (!IsTrimmable(t[0]) && !IsTrimmable(t[|t| - 1]))
    ensures Trim(s) == t
  {
    var r := Trim(s);
    var k': nat :| TrimmedAt(s, r, k');
    TrimmedAtEnds(s, t, k);
    TrimmedAtEnds(s, r, k');
    assert |r| == |t|;
    if |t| > 0 {
      assert k == k';
    }
  }
}
