/**
 * The string operations the log handler is built from, with the
 * semantics of the Java library calls it makes: `indexOf`, `contains`,
 * `trim`, and the handler's own splitting loop (`getValues`).
 */
module Text {

  /** Moving one element across a concatenation. */
  lemma AppendCons<T>(a: seq<T>, x: T, b: seq<T>)
    ensures a + ([x] + b) == (a + [x]) + b
  {
  }

  /** Regrouping a concatenation around one element. */
  lemma Regroup<T>(a: seq<T>, b: seq<T>, x: T, c: seq<T>, d: seq<T>)
    ensures a + (b + [x] + c) + d == (a + b) + [x] + (c + d)
  {
  }

  /** Moving one element out of a concatenation. */
  lemma Shift<T>(a: seq<T>, x: T, c: seq<T>, d: seq<T>)
    ensures a + ([x] + c + d) == a + [x] + (c + d)
  {
  }

  /** The middle part of a concatenation of three. */
  lemma Middle<T>(a: seq<T>, b: seq<T>, c: seq<T>)
    ensures (a + b + c)[|a|..|a| + |b|] == b
  {
    assert forall i :: 0 <= i < |b| ==> (a + b + c)[|a| + i] == b[i];
  }

  /** Position of the first `c` in `s`, or -1 when there is none (`String.indexOf`). */
  function IndexOf(s: string, c: char): (k: int)
    ensures -1 <= k < |s|
    ensures k == -1 <==> c !in s
    ensures 0 <= k ==> s[k] == c && c !in s[..k]
  {
    if |s| == 0 then -1
    else if s[0] == c then 0
    else
      var k := IndexOf(s[1..], c);
      if k == -1 then -1 else k + 1
  }

  /** The first `c` of `p + [c] + q` is the one after `p` when `p` holds none. */
  lemma IndexOfAfter(p: string, c: char, q: string)
    requires c !in p
    ensures IndexOf(p + [c] + q, c) == |p|
  {
    var s := p + [c] + q;
    assert s[|p|] == c;
  }

  /** A position holding `c` with no `c` before it is the first one. */
  lemma IndexOfIs(s: string, c: char, k: int)
    requires 0 <= k < |s| && s[k] == c && c !in s[..k]
    ensures IndexOf(s, c) == k
  {
    var i := IndexOf(s, c);
    forall j | 0 <= j < k
      ensures s[j] != c
    {
      assert s[..k][j] == s[j];
    }
    forall j | 0 <= j < i
      ensures s[j] != c
    {
      assert s[..i][j] == s[j];
    }
  }

  /** Past a prefix without `c`, the first `c` is the first one of the rest. */
  lemma {:induction false} IndexOfPast(p: string, q: string, c: char)
    requires c !in p
    ensures IndexOf(p + q, c) == if c in q then |p| + IndexOf(q, c) else -1
    decreases |p|
  {
    if |p| > 0 {
      assert (p + q)[1..] == p[1..] + q;
      IndexOfPast(p[1..], q, c);
    } else {
      assert p + q == q;
    }
  }

  /** Number of occurrences of `c` in `s`. */
  function Count(s: string, c: char): nat
  {
    multiset(s)[c]
  }

  /** Dropping everything up to and including the first `c` drops one `c`. */
  lemma CountAfterFirst(s: string, c: char)
    requires c in s
    ensures Count(s, c) == Count(s[IndexOf(s, c) + 1..], c) + 1
  {
    var k := IndexOf(s, c);
    var a, b := s[..k], s[k + 1..];
    assert s == a + [c] + b;
    assert c !in a;
    assert multiset(a)[c] == 0;
    assert multiset(s) == multiset(a) + multiset([c]) + multiset(b);
  }

  /** `s.contains(w)`: `w` occurs in `s` as a block of consecutive characters. */
  predicate Contains(s: string, w: string)
    decreases |s|
  {
    |w| <= |s| && (s[..|w|] == w || Contains(s[1..], w))
  }

  /** An occurrence inside the right-hand part is an occurrence of the whole. */
  lemma {:induction false} ContainsRight(x: string, y: string, w: string)
    requires Contains(y, w)
    ensures Contains(x + y, w)
    decreases |x|
  {
    if |x| > 0 {
      assert (x + y)[1..] == x[1..] + y;
      ContainsRight(x[1..], y, w);
    } else {
      assert x + y == y;
    }
  }

  /** An occurrence inside the left-hand part is an occurrence of the whole. */
  lemma {:induction false} ContainsLeft(x: string, y: string, w: string)
    requires Contains(x, w)
    ensures Contains(x + y, w)
    decreases |x|
  {
    if x[..|w|] == w {
      assert (x + y)[..|w|] == w;
    } else {
      assert (x + y)[1..] == x[1..] + y;
      ContainsLeft(x[1..], y, w);
    }
  }

  /**
   * An occurrence of `w` in `x + [d] + y`, where `d` is not a character
   * of `w`, lies inside `x` or inside `y`.
   */
  lemma {:induction false} ContainsAcross(x: string, d: char, y: string, w: string)
    requires d !in w
    requires Contains(x + [d] + y, w)
    ensures Contains(x, w) || Contains(y, w)
    decreases |x|
  {
    var s := x + [d] + y;
    // the character d sits at index |x| of s, and w cannot match across it
    assert |w| > |x| ==> s[..|w|][|x|] == d && w[|x|] != d;
    if |x| == 0 {
      assert s[1..] == y;
      if |w| == 0 {
        assert y[..0] == w;
      }
    } else if s[..|w|] == w {
      assert x[..|w|] == w;
    } else {
      assert s[1..] == x[1..] + [d] + y;
      ContainsAcross(x[1..], d, y, w);
      if Contains(x[1..], w) {
        assert x == [x[0]] + x[1..];
        ContainsRight([x[0]], x[1..], w);
      }
    }
  }

  /** A word holding a character the text lacks does not occur in it. */
  lemma {:induction false} MissingChar(s: string, w: string, ch: char)
    requires ch in w && ch !in s
    ensures !Contains(s, w)
    decreases |s|
  {
    if |w| <= |s| {
      assert ch !in s[..|w|];
      if |s| > 0 {
        MissingChar(s[1..], w, ch);
      }
    }
  }

  /** Pieces of `s` between the separators, in order (`getValues` before trimming). */
  function Split(s: string, sep: char): (r: seq<string>)
    ensures |r| == Count(s, sep) + 1
    ensures forall k :: 0 <= k < |r| ==> sep !in r[k]
    decreases |s|
  {
    var k := IndexOf(s, sep);
    if k == -1 then [s]
    else
      CountAfterFirst(s, sep);
      [s[..k]] + Split(s[k + 1..], sep)
  }

  /** The first piece starts the text. */
  lemma SplitFirst(s: string, sep: char)
    ensures Split(s, sep)[0] <= s
  {
  }

  /** The pieces put back together with the separator between them. */
  function Join(ps: seq<string>, sep: char): string
  {
    if |ps| == 0 then ""
    else if |ps| == 1 then ps[0]
    else ps[0] + [sep] + Join(ps[1..], sep)
  }

  /** Joining the pieces gives back the string that was split. */
  lemma {:induction false} JoinSplit(s: string, sep: char)
    ensures Join(Split(s, sep), sep) == s
    decreases |s|
  {
    var k := IndexOf(s, sep);
    if k != -1 {
      JoinSplit(s[k + 1..], sep);
      assert s == s[..k] + [sep] + s[k + 1..];
    }
  }

  /** Splitting a join of separator-free pieces gives back the pieces. */
  lemma {:induction false} SplitJoin(ps: seq<string>, sep: char)
    requires |ps| >= 1
    requires forall k :: 0 <= k < |ps| ==> sep !in ps[k]
    ensures Split(Join(ps, sep), sep) == ps
  {
    if |ps| > 1 {
      var rest := Join(ps[1..], sep);
      IndexOfAfter(ps[0], sep, rest);
      var s := ps[0] + [sep] + rest;
      assert s[..|ps[0]|] == ps[0];
      assert s[|ps[0]| + 1..] == rest;
      SplitJoin(ps[1..], sep);
      assert Join(ps, sep) == s;
      assert Split(s, sep) == [ps[0]] + ps[1..];
    }
  }

  /** Appending one more piece to a join of at least one piece. */
  lemma {:induction false} JoinSnoc(ps: seq<string>, p: string, sep: char)
    requires |ps| >= 1
    ensures Join(ps + [p], sep) == Join(ps, sep) + [sep] + p
  {
    if |ps| > 1 {
      assert (ps + [p])[1..] == ps[1..] + [p];
      JoinSnoc(ps[1..], p, sep);
    }
  }

  /** A character Java's `trim` removes: code point at most U+0020. */
  predicate IsBlank(c: char)
  {
    c <= ' '
  }

  /** How many blanks `s` starts with. */
  function Leading(s: string): (n: nat)
    ensures n <= |s|
    ensures forall k :: 0 <= k < n ==> IsBlank(s[k])
    ensures n < |s| ==> !IsBlank(s[n])
  {
    if |s| > 0 && IsBlank(s[0]) then 1 + Leading(s[1..]) else 0
  }

  /** How many blanks `s` ends with. */
  function Trailing(s: string): (n: nat)
    ensures n <= |s|
    ensures forall k :: |s| - n <= k < |s| ==> IsBlank(s[k])
    ensures n < |s| ==> !IsBlank(s[|s| - n - 1])
  {
    if |s| > 0 && IsBlank(s[|s| - 1]) then 1 + Trailing(s[..|s| - 1]) else 0
  }

  /**
   * `String.trim`: the block of `s` left after removing every blank at
   * either end; what is removed is blank and what is kept starts and ends
   * with a non-blank.
   */
  function Trim(s: string): (r: string)
    ensures exists i, j ::
              && 0 <= i <= j <= |s| && r == s[i..j]
              && (forall k :: 0 <= k < i ==> IsBlank(s[k]))
              && (forall k :: j <= k < |s| ==> IsBlank(s[k]))
    ensures |r| > 0 ==> !IsBlank(r[0]) && !IsBlank(r[|r| - 1])
  {
    var i := Leading(s);
    if i == |s| then
      assert s[i..i] == [];
      []
    else
      var j := |s| - Trailing(s);
      // s[i] is not blank while everything from j on is, so i < j
      assert i < j;
      s[i..j]
  }

  /** The leading blanks are exactly the blank prefix ending before a non-blank. */
  lemma LeadingIs(s: string, n: nat)
    requires n < |s| && !IsBlank(s[n])
    requires forall k :: 0 <= k < n ==> IsBlank(s[k])
    ensures Leading(s) == n
  {
  }

  /** The trailing blanks are exactly the blank suffix starting after a non-blank. */
  lemma TrailingIs(s: string, n: nat)
    requires n < |s| && !IsBlank(s[|s| - n - 1])
    requires forall k :: |s| - n <= k < |s| ==> IsBlank(s[k])
    ensures Trailing(s) == n
  {
  }

  /** Trimming blank margins off a string that starts and ends with non-blanks. */
  lemma TrimMargins(pre: string, s: string, post: string)
    requires forall k :: 0 <= k < |pre| ==> IsBlank(pre[k])
    requires forall k :: 0 <= k < |post| ==> IsBlank(post[k])
    requires |s| > 0 && !IsBlank(s[0]) && !IsBlank(s[|s| - 1])
    ensures Trim(pre + s + post) == s
  {
    var w := pre + s + post;
    assert w[|pre|] == s[0];
    LeadingIs(w, |pre|);
    assert w[|w| - |post| - 1] == s[|s| - 1];
    TrailingIs(w, |post|);
    assert w[|pre|..|pre| + |s|] == s;
  }

  /** Each piece trimmed. */
  function TrimAll(ps: seq<string>): (r: seq<string>)
    ensures |r| == |ps|
    ensures forall k :: 0 <= k < |ps| ==> r[k] == Trim(ps[k])
  {
    if |ps| == 0 then [] else [Trim(ps[0])] + TrimAll(ps[1..])
  }

  /** Pieces that trimming leaves alone come through `TrimAll` unchanged. */
  lemma TrimAllKeeps(ps: seq<string>)
    requires forall k :: 0 <= k < |ps| ==> Trim(ps[k]) == ps[k]
    ensures TrimAll(ps) == ps
  {
    var r := TrimAll(ps);
    assert forall k :: 0 <= k < |ps| ==> r[k] == ps[k];
  }

  /**
   * What `getValues(s, sep)` returns: the pieces between separators, in
   * order, each trimmed.
   */
  function Values(s: string, sep: char): (r: seq<string>)
    ensures |r| == Count(s, sep) + 1
  {
    TrimAll(Split(s, sep))
  }

  /** Each value is the piece at the same position, trimmed. */
  lemma ValuesAt(s: string, sep: char)
    ensures forall k :: 0 <= k < |Values(s, sep)| ==> Values(s, sep)[k] == Trim(Split(s, sep)[k])
  {
  }

  /** One round of the `getValues` loop: the first piece, trimmed, then the values of the rest. */
  lemma ValuesStep(s: string, sep: char)
    requires sep in s
    ensures Values(s, sep) == [Trim(s[..IndexOf(s, sep)])] + Values(s[IndexOf(s, sep) + 1..], sep)
  {
    var k := IndexOf(s, sep);
    var ps := Split(s, sep);
    assert ps == [s[..k]] + Split(s[k + 1..], sep);
    assert ps[1..] == Split(s[k + 1..], sep);
  }

  /** Without a separator, `getValues` returns the whole string, trimmed. */
  lemma ValuesLast(s: string, sep: char)
    requires sep !in s
    ensures Values(s, sep) == [Trim(s)]
  {
  }

  /** The first value is the text before the first separator, trimmed. */
  lemma ValuesHead(s: string, sep: char)
    ensures Values(s, sep)[0] == Trim(if sep in s then s[..IndexOf(s, sep)] else s)
  {
    if sep in s { ValuesStep(s, sep); } else { ValuesLast(s, sep); }
  }

  /** Trimming adds no character. */
  lemma TrimNoChar(s: string, c: char)
    requires c !in s
    ensures c !in Trim(s)
  {
    var i, j :| 0 <= i <= j <= |s| && Trim(s) == s[i..j];
    assert forall k :: 0 <= k < j - i ==> Trim(s)[k] == s[i + k];
  }

  /** No value holds the separator. */
  lemma ValuesNoSep(s: string, sep: char)
    ensures forall k :: 0 <= k < |Values(s, sep)| ==> sep !in Values(s, sep)[k]
  {
    var ps := Split(s, sep);
    forall k | 0 <= k < |ps|
      ensures sep !in Values(s, sep)[k]
    {
      TrimNoChar(ps[k], sep);
    }
  }

  /** Occurrences of `c` in all the pieces together. */
  function CountAll(ps: seq<string>, c: char): nat
  {
    if |ps| == 0 then 0 else Count(ps[0], c) + CountAll(ps[1..], c)
  }

  /** The pieces together hold no `c` exactly when none of them does. */
  lemma {:induction false} CountAllZero(ps: seq<string>, c: char)
    ensures CountAll(ps, c) == 0 <==> forall k :: 0 <= k < |ps| ==> c !in ps[k]
  {
    if |ps| > 0 {
      CountAllZero(ps[1..], c);
      assert forall k :: 1 <= k < |ps| ==> ps[k] == ps[1..][k - 1];
    }
  }

  /** A join of `n` pieces holds `n - 1` separators besides those inside the pieces. */
  lemma {:induction false} CountJoin(ps: seq<string>, sep: char)
    requires |ps| >= 1
    ensures Count(Join(ps, sep), sep) == |ps| - 1 + CountAll(ps, sep)
  {
    if |ps| > 1 {
      CountJoin(ps[1..], sep);
      var rest := Join(ps[1..], sep);
      assert multiset(ps[0] + [sep] + rest) == multiset(ps[0]) + multiset([sep]) + multiset(rest);
    } else {
      assert ps[1..] == [];
    }
  }
}
