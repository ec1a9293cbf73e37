/** The JavaScript string operations the library relies on, over `seq<char>`:
    `trim`, the `\s` character class, ASCII `toLowerCase`, `includes`, `join`,
    `split(c)[0]`, a single `replace` of a literal, and the code-point order that
    `Array.prototype.sort` applies to strings by default. */
module Strings {

  /** The WhiteSpace and LineTerminator code points of ECMAScript: what `trim`
      removes and what the regular-expression class `\s` matches. */
  predicate IsJsWhitespace(c: char) {
    || c == '\t' || c == '\n' || c == '\U{000B}' || c == '\U{000C}' || c == '\r'
    || c == ' ' || c == '\U{00A0}' || c == '\U{1680}'
    || ('\U{2000}' <= c <= '\U{200A}')
    || c == '\U{2028}' || c == '\U{2029}' || c == '\U{202F}' || c == '\U{205F}'
    || c == '\U{3000}' || c == '\U{FEFF}'
  }

  predicate AllWhitespace(s: string) {
    forall i :: 0 <= i < |s| ==> IsJsWhitespace(s[i])
  }

  /** `trimStart`: drops the leading whitespace and keeps the rest as it is. */
  function TrimStart(s: string): (r: string)
    ensures |r| <= |s| && r == s[|s| - |r|..]
    ensures r == [] || !IsJsWhitespace(r[0])
    ensures AllWhitespace(s[..|s| - |r|])
  {
    if s != [] && IsJsWhitespace(s[0]) then
      var r := TrimStart(s[1..]);
      assert s[..|s| - |r|] == [s[0]] + s[1..][..|s| - 1 - |r|];
      r
    else s
  }

  /** `trimEnd`: drops the trailing whitespace and keeps the rest as it is. */
  function TrimEnd(s: string): (r: string)
    ensures |r| <= |s| && r == s[..|r|]
    ensures r == [] || !IsJsWhitespace(r[|r| - 1])
    ensures AllWhitespace(s[|r|..])
  {
    if s != [] && IsJsWhitespace(s[|s| - 1]) then
      var r := TrimEnd(s[..|s| - 1]);
      assert s[|r|..] == s[..|s| - 1][|r|..] + [s[|s| - 1]];
      r
    else s
  }

  lemma TrimStartSkip(s: string)
    requires s != [] && IsJsWhitespace(s[0])
    ensures TrimStart(s) == TrimStart(s[1..])
  {
  }

  lemma TrimStartStop(s: string)
    requires s == [] || !IsJsWhitespace(s[0])
    ensures TrimStart(s) == s
  {
  }

  lemma TrimEndSkip(s: string)
    requires s != [] && IsJsWhitespace(s[|s| - 1])
    ensures TrimEnd(s) == TrimEnd(s[..|s| - 1])
  {
  }

  lemma TrimEndStop(s: string)
    requires s == [] || !IsJsWhitespace(s[|s| - 1])
    ensures TrimEnd(s) == s
  {
  }

  /** `trim`: the input without its leading and trailing whitespace, empty exactly
      when the input is all whitespace. */
  function Trim(s: string): (r: string)
    ensures |r| <= |s|
    ensures r != [] ==> !IsJsWhitespace(r[0]) && !IsJsWhitespace(r[|r| - 1])
    ensures r == [] <==> AllWhitespace(s)
    ensures TrimOffset(s) + |r| <= |s|
    ensures forall i :: 0 <= i < |r| ==> r[i] == s[TrimOffset(s) + i]
  {
    TrimFacts(s);
    TrimEnd(TrimStart(s))
  }

  lemma TrimFacts(s: string)
    ensures var r := TrimEnd(TrimStart(s));
      && (r != [] ==> !IsJsWhitespace(r[0]))
      && (r == [] <==> AllWhitespace(s))
      && TrimOffset(s) + |r| <= |s|
      && forall i :: 0 <= i < |r| ==> r[i] == s[TrimOffset(s) + i]
  {
    TrimHead(s);
    TrimEmptyIff(s);
    TrimPlace(s);
  }

  lemma TrimHead(s: string)
    ensures var r := TrimEnd(TrimStart(s)); r != [] ==> !IsJsWhitespace(r[0])
  {
    var t := TrimStart(s);
    var r := TrimEnd(t);
    if r != [] {
      assert r[0] == t[0];
    }
  }

  lemma TrimEmptyIff(s: string)
    ensures TrimEnd(TrimStart(s)) == [] <==> AllWhitespace(s)
  {
    var t := TrimStart(s);
    var r := TrimEnd(t);
    var k := |s| - |t|;
    if r == [] {
      assert t == [];
      assert s == s[..k];
    } else {
      assert r[0] == t[0] == s[k];
    }
  }

  lemma TrimPlace(s: string)
    ensures var r := TrimEnd(TrimStart(s));
      && TrimOffset(s) + |r| <= |s|
      && forall i :: 0 <= i < |r| ==> r[i] == s[TrimOffset(s) + i]
  {
    var t := TrimStart(s);
    TrimCompose(s, t, TrimEnd(t), TrimOffset(s));
  }

  lemma TrimCompose(s: string, t: string, r: string, k: nat)
    requires k + |t| == |s| && t == s[k..]
    requires |r| <= |t| && r == t[..|r|]
    ensures k + |r| <= |s| && forall i :: 0 <= i < |r| ==> r[i] == s[k + i]
  {
  }

  /** How many leading whitespace characters `trim` removes. */
  function TrimOffset(s: string): (k: nat)
    ensures k <= |s|
  {
    |s| - |TrimStart(s)|
  }

  /** `toLowerCase` on the ASCII letters; every other character is kept. */
  function LowerChar(c: char): char {
    if 'A' <= c <= 'Z' then (c as int + 32) as char else c
  }

  function ToLower(s: string): (r: string)
    ensures |r| == |s|
    ensures forall i :: 0 <= i < |s| ==> r[i] == LowerChar(s[i])
  {
    seq(|s|, i requires 0 <= i < |s| => LowerChar(s[i]))
  }

  /** `q` occurs in `t` starting at index `i`. */
  predicate OccursAt(t: string, q: string, i: int) {
    0 <= i && i + |q| <= |t| && t[i..i + |q|] == q
  }

  lemma OccursAtTail(t: string, q: string, i: int)
    requires t != [] && 0 <= i
    ensures OccursAt(t, q, i + 1) <==> OccursAt(t[1..], q, i)
  {
    if 0 <= i && i + 1 + |q| <= |t| {
      assert t[i + 1..i + 1 + |q|] == t[1..][i..i + |q|];
    }
  }

  /** `t.includes(q)`: `q` occurs in `t` as a contiguous piece. */
  function Contains(t: string, q: string): (r: bool)
    ensures r <==> exists i :: OccursAt(t, q, i)
  {
    if |q| > |t| then false
    else if t[..|q|] == q then assert OccursAt(t, q, 0); true
    else
      var r := Contains(t[1..], q);
      assert r ==> exists i :: OccursAt(t, q, i) by {
        if r {
          var j :| OccursAt(t[1..], q, j);
          OccursAtTail(t, q, j);
        }
      }
      assert (exists i :: OccursAt(t, q, i)) ==> r by {
        if exists i :: OccursAt(t, q, i) {
          var i :| OccursAt(t, q, i);
          assert t[0..|q|] == t[..|q|];
          assert i != 0;
          OccursAtTail(t, q, i - 1);
        }
      }
      r
  }

  /** `xs.join(sep)`. */
  function Join(xs: seq<string>, sep: string): string {
    if xs == [] then "" else if |xs| == 1 then xs[0] else xs[0] + sep + Join(xs[1..], sep)
  }

  /** Appending one more part adds the separator and the part at the end. */
  lemma {:induction false} JoinAppend(xs: seq<string>, y: string, sep: string)
    ensures Join(xs + [y], sep) == if xs == [] then y else Join(xs, sep) + sep + y
  {
    if |xs| > 1 {
      assert (xs + [y])[1..] == xs[1..] + [y];
      JoinAppend(xs[1..], y, sep);
    } else if |xs| == 1 {
      assert (xs + [y])[1..] == [y];
    }
  }

  /** `s.split(c)[0]`: the text before the first `c`, or all of `s` when there is none. */
  function BeforeFirst(s: string, c: char): (r: string)
    ensures |r| <= |s| && r == s[..|r|]
    ensures c !in r
    ensures |r| < |s| ==> s[|r|] == c
  {
    if s == [] || s[0] == c then [] else [s[0]] + BeforeFirst(s[1..], c)
  }

  /** Index of the first occurrence of `pat` in `s`, or -1 (`indexOf`). */
  function IndexOf(s: string, pat: string): (i: int)
    ensures i == -1 || OccursAt(s, pat, i)
    ensures forall j :: 0 <= j < i ==> !OccursAt(s, pat, j)
    ensures i == -1 <==> !Contains(s, pat)
  {
    if |pat| > |s| then -1
    else if s[..|pat|] == pat then 0
    else
      var k := IndexOf(s[1..], pat);
      IndexOfStep(s, pat, k);
      if k < 0 then -1 else k + 1
  }

  lemma IndexOfStep(s: string, pat: string, k: int)
    requires |pat| <= |s| && s[..|pat|] != pat
    requires k == -1 || OccursAt(s[1..], pat, k)
    requires forall j :: 0 <= j < k ==> !OccursAt(s[1..], pat, j)
    requires k == -1 ==> forall j :: !OccursAt(s[1..], pat, j)
    ensures k >= 0 ==> OccursAt(s, pat, k + 1)
    ensures forall j :: 0 <= j < (if k < 0 then |s| + 1 else k + 1) ==> !OccursAt(s, pat, j)
    ensures k == -1 ==> forall j :: !OccursAt(s, pat, j)
  {
    forall j | 0 <= j ensures (j < (if k < 0 then |s| + 1 else k + 1) || k == -1) ==> !OccursAt(s, pat, j) {
      if j > 0 { OccursAtTail(s, pat, j - 1); } else { assert s[0..|pat|] == s[..|pat|]; }
    }
    if k >= 0 { OccursAtTail(s, pat, k); }
  }

  /** `s.replace(pat, rep)` with a literal pattern: only the first occurrence is replaced. */
  function ReplaceFirst(s: string, pat: string, rep: string): (r: string)
    ensures !Contains(s, pat) ==> r == s
    ensures Contains(s, pat) ==>
      var i := IndexOf(s, pat); r == s[..i] + rep + s[i + |pat|..]
  {
    var i := IndexOf(s, pat);
    if i < 0 then s else s[..i] + rep + s[i + |pat|..]
  }

  /** The order in which `Array.prototype.sort` leaves strings when no comparator is
      given: lexicographic on characters, a proper prefix first. */
  predicate LexLe(a: string, b: string) {
    a == [] || (b != [] && (a[0] < b[0] || (a[0] == b[0] && LexLe(a[1..], b[1..]))))
  }

  lemma {:induction false} LexLeTotal(a: string, b: string)
    ensures LexLe(a, b) || LexLe(b, a)
  {
    if a != [] && b != [] && a[0] == b[0] {
      LexLeTotal(a[1..], b[1..]);
    }
  }

  lemma {:induction false} LexLeTransitive(a: string, b: string, c: string)
    requires LexLe(a, b) && LexLe(b, c)
    ensures LexLe(a, c)
  {
    if a != [] && b != [] && c != [] && a[0] == b[0] == c[0] {
      LexLeTransitive(a[1..], b[1..], c[1..]);
    }
  }

  lemma {:induction false} LexLeAntisymmetric(a: string, b: string)
    requires LexLe(a, b) && LexLe(b, a)
    ensures a == b
  {
    if a != [] && b != [] {
      LexLeAntisymmetric(a[1..], b[1..]);
      assert a == [a[0]] + a[1..] && b == [b[0]] + b[1..];
    }
  }
}
