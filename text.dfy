/**
 The three Python string operations the recorder relies on, for a pattern of
 one character: `s.replace(c, rep)`, `s.split(c)` and `sep.join(ws)`.
 Replace is given a second, independent characterisation through Split and
 Join, and Split and Join are shown to undo each other.
 */
module Text {

  /** Number of occurrences of `c` in `s`. */
  function Count(s: string, c: char): nat
  {
    if s == [] then 0 else (if s[0] == c then 1 else 0) + Count(s[1..], c)
  }

  /** Python's `s.replace(c, rep)`: every occurrence of `c`, left to right, becomes `rep`. */
  function Replace(s: string, c: char, rep: string): (r: string)
    ensures c !in s ==> r == s
    ensures c !in rep ==> c !in r
  {
    if s == [] then []
    else (if s[0] == c then rep else [s[0]]) + Replace(s[1..], c, rep)
  }

  /** Python's `s.split(c)`: the maximal runs between occurrences of `c`
      (empty runs included), so always at least one piece. */
  function Split(s: string, c: char): (r: seq<string>)
    ensures |r| >= 1
    ensures forall i :: 0 <= i < |r| ==> c !in r[i]
    ensures c !in s ==> r == [s]
  {
    if s == [] then [[]]
    else
      var p := Split(s[1..], c);
      if s[0] == c then [[]] + p
      else
        assert c !in s ==> [s[0]] + s[1..] == s;
        [[s[0]] + p[0]] + p[1..]
  }

  /** Python's `sep.join(ws)`. */
  function Join(ws: seq<string>, sep: string): string
  {
    if |ws| == 0 then []
    else if |ws| == 1 then ws[0]
    else ws[0] + sep + Join(ws[1..], sep)
  }

  /** Replacing in a concatenation replaces in each part. */
  lemma {:induction false} ReplaceAppend(a: string, b: string, c: char, rep: string)
    ensures Replace(a + b, c, rep) == Replace(a, c, rep) + Replace(b, c, rep)
  {
    if a == [] {
      assert a + b == b;
    } else {
      assert (a + b)[0] == a[0];
      assert (a + b)[1..] == a[1..] + b;
      ReplaceAppend(a[1..], b, c, rep);
    }
  }

  /** Each occurrence of `c` grows the string by `|rep| - 1` characters. */
  lemma {:induction false} ReplaceLength(s: string, c: char, rep: string)
    ensures |Replace(s, c, rep)| == |s| - Count(s, c) + Count(s, c) * |rep|
  {
    if s != [] {
      var k := Count(s[1..], c);
      ReplaceLength(s[1..], c, rep);
      assert (k + 1) * |rep| == k * |rep| + |rep|;
    }
  }

  /** Every character of the result comes from `s` or from `rep`. */
  lemma {:induction false} ReplaceChars(s: string, c: char, rep: string, x: char)
    requires x in Replace(s, c, rep)
    ensures x in s || x in rep
  {
    if s != [] {
      if x !in (if s[0] == c then rep else [s[0]]) {
        ReplaceChars(s[1..], c, rep, x);
      }
    }
  }

  /** Replacing `c` by itself changes nothing. */
  lemma {:induction false} ReplaceSelf(s: string, c: char)
    ensures Replace(s, c, [c]) == s
  {
    if s != [] {
      ReplaceSelf(s[1..], c);
      if s[0] == c {
        assert [c] + s[1..] == s;
      } else {
        assert [s[0]] + s[1..] == s;
      }
    }
  }

  /** One piece more than there are occurrences of `c`. */
  lemma {:induction false} SplitLength(s: string, c: char)
    ensures |Split(s, c)| == Count(s, c) + 1
  {
    if s != [] {
      SplitLength(s[1..], c);
    }
  }

  /** Join of a list with one more element appended at the back. */
  lemma {:induction false} JoinSnoc(ws: seq<string>, w: string, sep: string)
    requires |ws| >= 1
    ensures Join(ws + [w], sep) == Join(ws, sep) + sep + w
  {
    if |ws| > 1 {
      assert (ws + [w])[1..] == ws[1..] + [w];
      JoinSnoc(ws[1..], w, sep);
    }
  }

  /** Join of a list whose first element gets one more character at the front. */
  lemma JoinConsChar(x: char, w: string, rest: seq<string>, sep: string)
    ensures Join([[x] + w] + rest, sep) == [x] + Join([w] + rest, sep)
  {
    assert ([[x] + w] + rest)[1..] == rest;
    assert ([w] + rest)[1..] == rest;
  }

  /** Reference characterisation: replacing is splitting at `c` and joining with `rep`. */
  lemma {:induction false} ReplaceIsSplitJoin(s: string, c: char, rep: string)
    ensures Replace(s, c, rep) == Join(Split(s, c), rep)
  {
    if s != [] {
      var p := Split(s[1..], c);
      ReplaceIsSplitJoin(s[1..], c, rep);
      if s[0] == c {
        assert ([[]] + p)[1..] == p;
      } else {
        assert p == [p[0]] + p[1..];
        JoinConsChar(s[0], p[0], p[1..], rep);
      }
    }
  }

  /** Splitting a string that starts with a run free of `c` followed by `c`. */
  lemma {:induction false} SplitAfterRun(w: string, t: string, c: char)
    requires c !in w
    ensures Split(w + [c] + t, c) == [w] + Split(t, c)
  {
    if w == [] {
      assert w + [c] + t == [c] + t;
      assert ([c] + t)[1..] == t;
    } else {
      var s := w + [c] + t;
      assert s[0] == w[0];
      assert s[1..] == w[1..] + [c] + t;
      SplitAfterRun(w[1..], t, c);
      assert [w[0]] + w[1..] == w;
    }
  }

  /** Splitting a string that ends with `c` followed by a run free of `c`. */
  lemma {:induction false} SplitBeforeRun(s: string, w: string, c: char)
    requires c !in w
    ensures Split(s + [c] + w, c) == Split(s, c) + [w]
  {
    if s == [] {
      assert s + [c] + w == [c] + w;
      assert ([c] + w)[1..] == w;
    } else {
      var t := s + [c] + w;
      assert t[0] == s[0];
      assert t[1..] == s[1..] + [c] + w;
      SplitBeforeRun(s[1..], w, c);
    }
  }

  /** Joining pieces free of `c` with `c`, then splitting at `c`, gives the pieces back. */
  lemma {:induction false} SplitJoin(ws: seq<string>, c: char)
    requires |ws| >= 1
    requires forall i :: 0 <= i < |ws| ==> c !in ws[i]
    ensures Split(Join(ws, [c]), c) == ws
  {
    if |ws| > 1 {
      SplitJoin(ws[1..], c);
      SplitAfterRun(ws[0], Join(ws[1..], [c]), c);
      assert [ws[0]] + ws[1..] == ws;
    }
  }

  /** Splitting at `c`, then joining with `c`, gives the string back. */
  lemma JoinSplit(s: string, c: char)
    ensures Join(Split(s, c), [c]) == s
  {
    ReplaceIsSplitJoin(s, c, [c]);
    ReplaceSelf(s, c);
  }
}
