/** The string operations of JavaScript that the dashboard and the login screen
    rely on: `trim`, `toLowerCase`, `includes`, `split(sep)[0]`, the default
    order of `sort` (as code-point order), and the `YYYY-MM-DD` pattern test. */
module Text {

  /** The characters `String.prototype.trim` removes (white space and line terminators). */
  predicate IsSpace(c: char) {
    || c == ' ' || c == '\t' || c == '\n' || c == '\r' || c == '\U{B}' || c == '\U{C}'
    || c == '\U{A0}' || c == '\U{1680}' || ('\U{2000}' <= c <= '\U{200A}')
    || c == '\U{2028}' || c == '\U{2029}' || c == '\U{202F}' || c == '\U{205F}'
    || c == '\U{3000}' || c == '\U{FEFF}'
  }

  /** The characters satisfying `p` removed from the front of `s`. */
  function DropFront(s: string, p: char -> bool): string {
    if s != [] && p(s[0]) then DropFront(s[1..], p) else s
  }

  /** The characters satisfying `p` removed from the back of `s`. */
  function DropBack(s: string, p: char -> bool): string {
    if s != [] && p(s[|s| - 1]) then DropBack(s[..|s| - 1], p) else s
  }

  lemma {:induction false} DropFrontSpec(s: string, p: char -> bool)
    ensures var r := DropFront(s, p);
            && |r| <= |s| && r == s[|s| - |r|..]
            && (forall i :: 0 <= i < |s| - |r| ==> p(s[i]))
            && (r == [] || !p(r[0]))
  {
    if s != [] && p(s[0]) {
      var t := s[1..];
      DropFrontSpec(t, p);
      var r := DropFront(t, p);
      assert DropFront(s, p) == r;
      assert t[|t| - |r|..] == s[|s| - |r|..];
      forall i | 0 <= i < |s| - |r| ensures p(s[i]) {
        if i > 0 {
          assert s[i] == t[i - 1];
        }
      }
    }
  }

  lemma {:induction false} DropBackSpec(s: string, p: char -> bool)
    ensures var r := DropBack(s, p);
            && |r| <= |s| && r == s[..|r|]
            && (forall i :: |r| <= i < |s| ==> p(s[i]))
            && (r == [] || !p(r[|r| - 1]))
  {
    if s != [] && p(s[|s| - 1]) {
      var t := s[..|s| - 1];
      DropBackSpec(t, p);
      var r := DropBack(t, p);
      assert DropBack(s, p) == r;
      assert t[..|r|] == s[..|r|];
      forall i | |r| <= i < |s| ensures p(s[i]) {
        if i < |t| {
          assert s[i] == t[i];
        }
      }
    }
  }

  /** `r` is `s[a..a + |r|]` and everything of `s` outside that slice satisfies `p`. */
  ghost predicate IsCoreAt(s: string, r: string, a: int, p: char -> bool) {
    && 0 <= a <= |s| - |r| && r == s[a..a + |r|]
    && (forall i :: 0 <= i < a ==> p(s[i]))
    && (forall i :: a + |r| <= i < |s| ==> p(s[i]))
  }

  /** Dropping from both ends leaves a slice of `s` that neither starts nor ends
      with a dropped character, with only dropped characters outside it. */
  lemma DropBothCore(s: string, p: char -> bool)
    ensures var r := DropBack(DropFront(s, p), p);
            && (r == [] || (!p(r[0]) && !p(r[|r| - 1])))
            && IsCoreAt(s, r, |s| - |DropFront(s, p)|, p)
  {
    var t := DropFront(s, p);
    var r := DropBack(t, p);
    DropFrontSpec(s, p);
    DropBackSpec(t, p);
    var a := |s| - |t|;
    assert t == s[a..] && r == t[..|r|];
    assert r != [] ==> r[0] == t[0];
    forall i | a + |r| <= i < |s| ensures p(s[i]) {
      assert s[i] == t[i - a];
    }
  }

  /** `String.prototype.trim`: the white space at both ends removed. */
  function Trim(s: string): string {
    DropBack(DropFront(s, IsSpace), IsSpace)
  }

  /** What `trim` leaves is a slice of `s` that neither starts nor ends with
      white space, and everything of `s` outside it is white space. */
  lemma TrimCore(s: string)
    ensures var r := Trim(s);
            && (r == [] || (!IsSpace(r[0]) && !IsSpace(r[|r| - 1])))
            && exists a :: IsCoreAt(s, r, a, IsSpace)
  {
    DropBothCore(s, IsSpace);
  }

  function LowerChar(c: char): char {
    if 'A' <= c <= 'Z' then (c as int + 32) as char else c
  }

  /** `String.prototype.toLowerCase`, for the Latin capital letters A-Z. */
  function Lower(s: string): string {
    seq(|s|, i requires 0 <= i < |s| => LowerChar(s[i]))
  }

  /** Lower-casing twice is lower-casing once. */
  lemma LowerIdempotent(s: string)
    ensures Lower(Lower(s)) == Lower(s)
  {
    forall i | 0 <= i < |s| ensures Lower(Lower(s))[i] == Lower(s)[i] {
      var c := s[i];
      assert LowerChar(LowerChar(c)) == LowerChar(c);
    }
  }

  /** `sub` occurs in `s` starting at index `i`. */
  predicate OccursAt(s: string, sub: string, i: int) {
    0 <= i && i + |sub| <= |s| && s[i..i + |sub|] == sub
  }

  lemma OccursAtTail(s: string, sub: string, i: nat)
    requires s != []
    ensures OccursAt(s[1..], sub, i) <==> OccursAt(s, sub, i + 1)
  {
    if i + 1 + |sub| <= |s| {
      assert s[1..][i..i + |sub|] == s[i + 1..i + 1 + |sub|];
    }
  }

  /** An occurrence in `s` is either at index 0 or an occurrence in `s[1..]`. */
  lemma OccursSomewhereTail(s: string, sub: string)
    requires s != [] && !OccursAt(s, sub, 0)
    ensures (exists i :: OccursAt(s, sub, i)) <==> (exists i :: OccursAt(s[1..], sub, i))
  {
    if exists i :: OccursAt(s[1..], sub, i) {
      var i :| OccursAt(s[1..], sub, i);
      OccursAtTail(s, sub, i);
    }
    if exists i :: OccursAt(s, sub, i) {
      var i :| OccursAt(s, sub, i);
      OccursAtTail(s, sub, i - 1);
    }
  }

  /** `String.prototype.includes`. */
  function Contains(s: string, sub: string): bool {
    if |sub| > |s| then false
    else if s[..|sub|] == sub then true
    else Contains(s[1..], sub)
  }

  /** `includes` holds exactly when the needle occurs at some index. */
  lemma {:induction false} ContainsOccurs(s: string, sub: string)
    ensures Contains(s, sub) <==> exists i :: OccursAt(s, sub, i)
  {
    if |sub| > |s| {
    } else if s[..|sub|] == sub {
      assert OccursAt(s, sub, 0);
    } else {
      OccursSomewhereTail(s, sub);
      ContainsOccurs(s[1..], sub);
    }
  }

  /** A text that contains `b` contains everything `b` contains. */
  lemma ContainsTransitive(a: string, b: string, c: string)
    requires Contains(a, b) && Contains(b, c)
    ensures Contains(a, c)
  {
    ContainsOccurs(a, b);
    ContainsOccurs(b, c);
    ContainsOccurs(a, c);
    var i :| OccursAt(a, b, i);
    var j :| OccursAt(b, c, j);
    forall m | 0 <= m < |c| ensures a[i + j..i + j + |c|][m] == c[m] {
      assert c[m] == b[j..j + |c|][m] == b[j + m];
      assert b[j + m] == a[i..i + |b|][j + m];
    }
    assert OccursAt(a, c, i + j);
  }

  /** `s.split(sep)[0]`: the text of `s` before the first occurrence of `sep`, or all of
      `s` when `sep` does not occur. */
  function BeforeFirst(s: string, sep: string): string
    requires |sep| > 0
  {
    if s == [] || OccursAt(s, sep, 0) then "" else [s[0]] + BeforeFirst(s[1..], sep)
  }

  /** `split(sep)[0]` is the prefix of `s` that ends at the first occurrence of
      the separator, or all of `s` when there is none. */
  lemma {:induction false} BeforeFirstSpec(s: string, sep: string)
    requires |sep| > 0
    ensures var r := BeforeFirst(s, sep);
            && |r| <= |s| && r == s[..|r|]
            && (|r| == |s| || OccursAt(s, sep, |r|))
            && (forall i :: 0 <= i < |r| ==> !OccursAt(s, sep, i))
  {
    if s != [] && !OccursAt(s, sep, 0) {
      BeforeFirstSpec(s[1..], sep);
      var rest := BeforeFirst(s[1..], sep);
      assert BeforeFirst(s, sep) == [s[0]] + rest;
      forall i | 0 < i <= |s| ensures OccursAt(s, sep, i) <==> OccursAt(s[1..], sep, i - 1) {
        OccursAtTail(s, sep, i - 1);
      }
    }
  }

  /** When the first occurrence of the separator is at `n`, `split(sep)[0]` is
      the first `n` characters. */
  lemma {:induction false} BeforeFirstAt(s: string, sep: string, n: nat)
    requires |sep| > 0 && OccursAt(s, sep, n)
    requires forall i :: 0 <= i < n ==> !OccursAt(s, sep, i)
    ensures BeforeFirst(s, sep) == s[..n]
  {
    if n > 0 {
      assert !OccursAt(s, sep, 0);
      OccursAtTail(s, sep, n - 1);
      forall i | 0 <= i < n - 1 ensures !OccursAt(s[1..], sep, i) {
        OccursAtTail(s, sep, i);
      }
      BeforeFirstAt(s[1..], sep, n - 1);
      assert s[..n] == [s[0]] + s[1..][..n - 1];
    }
  }

  /** Lexicographic order on strings, character by character in code-point
      order. It stands for the default `Array.prototype.sort`, which compares
      UTF-16 code units; the two agree below U+FFFF. */
  predicate LexLess(a: string, b: string) {
    if a == [] then b != []
    else if b == [] then false
    else if a[0] != b[0] then a[0] < b[0]
    else LexLess(a[1..], b[1..])
  }

  lemma {:induction false} LexLessIrreflexive(a: string)
    ensures !LexLess(a, a)
  {
    if a != [] {
      LexLessIrreflexive(a[1..]);
    }
  }

  lemma {:induction false} LexLessTransitive(a: string, b: string, c: string)
    requires LexLess(a, b) && LexLess(b, c)
    ensures LexLess(a, c)
  {
    if a != [] && b != [] && c != [] && a[0] == b[0] && b[0] == c[0] {
      LexLessTransitive(a[1..], b[1..], c[1..]);
    }
  }

  /** Any two different strings are ordered one way or the other. */
  lemma {:induction false} LexLessTotal(a: string, b: string)
    requires a != b
    ensures LexLess(a, b) || LexLess(b, a)
  {
    if a != [] && b != [] && a[0] == b[0] {
      assert a == [a[0]] + a[1..] && b == [b[0]] + b[1..];
      LexLessTotal(a[1..], b[1..]);
    }
  }

  lemma {:induction false} LexLessAsymmetric(a: string, b: string)
    requires LexLess(a, b)
    ensures !LexLess(b, a)
  {
    if a != [] && b != [] && a[0] == b[0] {
      LexLessAsymmetric(a[1..], b[1..]);
    }
  }

  /** `lt` is a strict total order on strings. */
  ghost predicate StrictTotalOrder(lt: (string, string) -> bool) {
    && (forall a :: !lt(a, a))
    && (forall a, b, c :: lt(a, b) && lt(b, c) ==> lt(a, c))
    && (forall a, b :: a != b ==> lt(a, b) || lt(b, a))
  }

  lemma LexLessIsStrictTotalOrder()
    ensures StrictTotalOrder(LexLess)
  {
    forall a ensures !LexLess(a, a) {
      LexLessIrreflexive(a);
    }
    forall a, b, c | LexLess(a, b) && LexLess(b, c) ensures LexLess(a, c) {
      LexLessTransitive(a, b, c);
    }
    forall a, b | a != b ensures LexLess(a, b) || LexLess(b, a) {
      LexLessTotal(a, b);
    }
  }

  predicate IsDigit(c: char) {
    '0' <= c <= '9'
  }

  /** The regular expression `/^\d{4}-\d{2}-\d{2}$/`. */
  predicate IsIsoDate(d: string) {
    && |d| == 10
    && IsDigit(d[0]) && IsDigit(d[1]) && IsDigit(d[2]) && IsDigit(d[3])
    && d[4] == '-' && IsDigit(d[5]) && IsDigit(d[6])
    && d[7] == '-' && IsDigit(d[8]) && IsDigit(d[9])
  }
}
