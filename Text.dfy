/**
 The string operations the server applies: `s.replace(/c/g, '')`,
 `s.replace(/c/g, d)` for a single character, and splitting a form body on
 a separator, with the facts about them the other modules use.
 */
module Text {

  /** Number of occurrences of `c` in `s`. */
  function Count(s: string, c: char): (n: nat)
    ensures n <= |s|
    ensures n == 0 <==> c !in s
  {
    if s == [] then 0
    else (if s[0] == c then 1 else 0) + Count(s[1..], c)
  }

  lemma {:induction false} CountConcat(a: string, b: string, c: char)
    ensures Count(a + b, c) == Count(a, c) + Count(b, c)
    decreases |a|
  {
    if a == [] {
      assert a + b == b;
    } else {
      assert (a + b)[1..] == a[1..] + b;
      CountConcat(a[1..], b, c);
    }
  }

  lemma {:induction false} CountAll(s: string, c: char)
    requires forall i :: 0 <= i < |s| ==> s[i] == c
    ensures Count(s, c) == |s|
    decreases |s|
  {
    if s != [] {
      CountAll(s[1..], c);
    }
  }

  /** `s.replace(/c/g, '')`: every `c` removed, every other character kept in order. */
  function RemoveAll(s: string, c: char): (r: string)
    ensures |r| == |s| - Count(s, c)
    ensures c !in r
    ensures c !in s ==> r == s
    decreases |s|
  {
    if s == [] then []
    else if s[0] == c then RemoveAll(s[1..], c)
    else
      var rest := RemoveAll(s[1..], c);
      assert c !in s ==> c !in s[1..] && [s[0]] + s[1..] == s;
      [s[0]] + rest
  }

  /**
   Removal works piece by piece: with the length clause (a lone `c` gives the
   empty string) and the clause for strings without `c`, this says that the
   characters other than `c` are kept, in order.
   */
  lemma {:induction false} RemoveAllConcat(a: string, b: string, c: char)
    ensures RemoveAll(a + b, c) == RemoveAll(a, c) + RemoveAll(b, c)
    decreases |a|
  {
    if a == [] {
      assert a + b == b;
    } else {
      assert (a + b)[0] == a[0] && (a + b)[1..] == a[1..] + b;
      RemoveAllConcat(a[1..], b, c);
    }
  }

  /** `s.replace(/from/g, to)` for single characters: a pointwise substitution. */
  function ReplaceAll(s: string, from: char, to: char): (r: string)
    ensures |r| == |s|
    ensures forall i :: 0 <= i < |s| ==> r[i] == (if s[i] == from then to else s[i])
    decreases |s|
  {
    if s == [] then []
    else [if s[0] == from then to else s[0]] + ReplaceAll(s[1..], from, to)
  }

  lemma ReplaceAllConcat(a: string, b: string, from: char, to: char)
    ensures ReplaceAll(a + b, from, to) == ReplaceAll(a, from, to) + ReplaceAll(b, from, to)
  {
    var l, r := ReplaceAll(a + b, from, to), ReplaceAll(a, from, to) + ReplaceAll(b, from, to);
    assert |l| == |r|;
    forall i | 0 <= i < |l| ensures l[i] == r[i] {
      if i >= |a| {
        assert (a + b)[i] == b[i - |a|];
      }
    }
  }

  /** Removing one character and substituting two others, neither of them the removed one, commute. */
  lemma {:induction false} RemoveReplaceCommute(s: string, c: char, from: char, to: char)
    requires c != from && c != to
    ensures RemoveAll(ReplaceAll(s, from, to), c) == ReplaceAll(RemoveAll(s, c), from, to)
    decreases |s|
  {
    if s != [] {
      var x := s[0];
      var y := if x == from then to else x;
      assert ReplaceAll(s, from, to) == [y] + ReplaceAll(s[1..], from, to);
      assert ([y] + ReplaceAll(s[1..], from, to))[1..] == ReplaceAll(s[1..], from, to);
      RemoveReplaceCommute(s[1..], c, from, to);
      if x != c {
        assert ([x] + RemoveAll(s[1..], c))[1..] == RemoveAll(s[1..], c);
      }
    }
  }

  /** `s.split(sep)`: the pieces between separators; there is always at least one. */
  function Split(s: string, sep: char): (parts: seq<string>)
    ensures |parts| >= 1
    ensures forall k :: 0 <= k < |parts| ==> sep !in parts[k]
    decreases |s|
  {
    if s == [] then [""]
    else
      var rest := Split(s[1..], sep);
      if s[0] == sep then [""] + rest
      else [[s[0]] + rest[0]] + rest[1..]
  }

  /** There is one more piece than there are separators. */
  lemma {:induction false} SplitCount(s: string, sep: char)
    ensures |Split(s, sep)| == Count(s, sep) + 1
    decreases |s|
  {
    if s != [] {
      SplitCount(s[1..], sep);
    }
  }

  /** A leading separator closes an empty first piece. */
  lemma SplitSepCons(t: string, sep: char)
    ensures Split([sep] + t, sep) == [""] + Split(t, sep)
  {
    assert ([sep] + t)[0] == sep && ([sep] + t)[1..] == t;
  }

  /** A leading character other than the separator joins the first piece. */
  lemma SplitPlainCons(x: char, u: string, sep: char, first: string, later: seq<string>)
    requires x != sep
    requires Split(u, sep) == [first] + later
    ensures Split([x] + u, sep) == [[x] + first] + later
  {
    assert ([x] + u)[0] == x && ([x] + u)[1..] == u;
    assert ([first] + later)[1..] == later;
  }

  /** Splitting at a separator splits the two sides independently. */
  lemma {:induction false} SplitJoin(a: string, b: string, sep: char)
    ensures Split(a + [sep] + b, sep) == Split(a, sep) + Split(b, sep)
    decreases |a|
  {
    if a == [] {
      assert a + [sep] + b == [sep] + b;
      SplitSepCons(b, sep);
    } else {
      var x, t := a[0], a[1..];
      SplitJoin(t, b, sep);
      if x == sep {
        SplitJoinSep(t + [sep] + b, t, Split(b, sep), sep);
      } else {
        SplitJoinPlain(x, t + [sep] + b, t, Split(b, sep), sep);
      }
      assert a == [x] + t && a + [sep] + b == [x] + (t + [sep] + b);
    }
  }

  /** The inductive step of SplitJoin for a leading separator. */
  lemma SplitJoinSep(u: string, t: string, tail: seq<string>, sep: char)
    requires Split(u, sep) == Split(t, sep) + tail
    ensures Split([sep] + u, sep) == Split([sep] + t, sep) + tail
  {
    SplitSepCons(u, sep);
    SplitSepCons(t, sep);
    assert [""] + (Split(t, sep) + tail) == ([""] + Split(t, sep)) + tail;
  }

  /** The inductive step of SplitJoin for a leading character other than the separator. */
  lemma SplitJoinPlain(x: char, u: string, t: string, tail: seq<string>, sep: char)
    requires x != sep
    requires Split(u, sep) == Split(t, sep) + tail
    ensures Split([x] + u, sep) == Split([x] + t, sep) + tail
  {
    var head := Split(t, sep);
    Regroup(x, head, tail);
    SplitPlainCons(x, u, sep, head[0], head[1..] + tail);
    SplitPlainCons(x, t, sep, head[0], head[1..]);
  }

  /** Moving the first piece out of a list of pieces and extending it commutes with appending more. */
  lemma Regroup(x: char, head: seq<string>, tail: seq<string>)
    requires |head| >= 1
    ensures head == [head[0]] + head[1..]
    ensures head + tail == [head[0]] + (head[1..] + tail)
    ensures [[x] + head[0]] + (head[1..] + tail) == ([[x] + head[0]] + head[1..]) + tail
  {
  }

  /** Splitting at two separators: three independently split sides. */
  lemma SplitJoin3(a: string, b: string, c: string, sep: char)
    ensures Split(a + [sep] + b + [sep] + c, sep) == Split(a, sep) + Split(b, sep) + Split(c, sep)
  {
    SplitJoin(a + [sep] + b, c, sep);
    SplitJoin(a, b, sep);
  }

  /** A prefix without the separator joins the first piece; the later pieces are untouched. */
  lemma {:induction false} SplitAfterPlain(p: string, s: string, sep: char)
    requires sep !in p
    ensures Split(p + s, sep) == [p + Split(s, sep)[0]] + Split(s, sep)[1..]
    decreases |p|
  {
    if p == [] {
      assert p + s == s && p + Split(s, sep)[0] == Split(s, sep)[0];
    } else {
      var x, q := p[0], p[1..];
      var first, later := Split(s, sep)[0], Split(s, sep)[1..];
      assert p == [x] + q && sep !in q;
      SplitAfterPlain(q, s, sep);
      SplitPlainCons(x, q + s, sep, q + first, later);
      assert [x] + (q + s) == p + s && [x] + (q + first) == p + first;
    }
  }

  /** A string without the separator is a single piece. */
  lemma {:induction false} SplitNone(s: string, sep: char)
    requires sep !in s
    ensures Split(s, sep) == [s]
    decreases |s|
  {
    if s != [] {
      SplitNone(s[1..], sep);
      assert [s[0]] + s[1..] == s;
    }
  }
}
