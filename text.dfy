/** Strings as JavaScript builds them: `Array.prototype.join`, `String.prototype.split`
    on a one-character separator, and the decimal rendering of integral numbers that
    template literals perform. */
module Text {

  datatype Option<T> = None | Some(value: T)

  /** A thrown JavaScript `Error`, reduced to its message. */
  datatype Result<T> = Ok(value: T) | Err(message: string)

  predicate StartsWith(s: string, prefix: string) {
    |prefix| <= |s| && s[..|prefix|] == prefix
  }

  predicate EndsWith(s: string, suffix: string) {
    |suffix| <= |s| && s[|s| - |suffix|..] == suffix
  }

  /** What stands first and last in a two-piece concatenation. */
  lemma Ends2(a: string, b: string)
    ensures StartsWith(a + b, a) && EndsWith(a + b, b)
  {
    assert (a + b)[..|a|] == a;
    assert (a + b)[|a|..] == b;
  }

  /** What stands first and last in a three-piece concatenation. */
  lemma Ends3(a: string, b: string, c: string)
    ensures StartsWith(a + b + c, a) && EndsWith(a + b + c, c)
  {
    assert (a + b + c)[..|a|] == a;
    assert (a + b + c)[|a + b|..] == c;
  }

  /** A slice inside the middle piece of a concatenation. */
  lemma MiddleSlice(a: string, b: string, z: string, lo: nat, hi: nat)
    requires lo <= hi <= |b|
    ensures (a + b + z)[|a| + lo..|a| + hi] == b[lo..hi]
  {
    assert (a + b + z)[|a|..|a| + |b|] == b;
  }

  lemma EndsWithTrans(s: string, t: string, u: string)
    requires EndsWith(s, t) && EndsWith(t, u)
    ensures EndsWith(s, u)
  {
    assert s[|s| - |u|..] == s[|s| - |t|..][|t| - |u|..];
  }

  lemma StartsWithTrans(s: string, t: string, u: string)
    requires StartsWith(s, t) && StartsWith(t, u)
    ensures StartsWith(s, u)
  {
    assert s[..|u|] == s[..|t|][..|u|];
  }

  /** `parts.join(sep)`. */
  function Join(parts: seq<string>, sep: string): string
    decreases |parts|
  {
    if |parts| == 0 then ""
    else if |parts| == 1 then parts[0]
    else parts[0] + sep + Join(parts[1..], sep)
  }

  /** A join of no parts is empty; any other starts with its first part and ends with
      its last. */
  lemma {:induction false} JoinBounds(parts: seq<string>, sep: string)
    ensures parts == [] ==> Join(parts, sep) == ""
    ensures |parts| >= 1 ==>
      StartsWith(Join(parts, sep), parts[0]) && EndsWith(Join(parts, sep), parts[|parts| - 1])
    decreases |parts|
  {
    if |parts| >= 2 {
      var rest := Join(parts[1..], sep);
      JoinBounds(parts[1..], sep);
      Ends3(parts[0], sep, rest);
      EndsWithTrans(parts[0] + sep + rest, rest, parts[|parts| - 1]);
    }
  }

  /** Joining two non-empty lists puts exactly one separator between them. */
  lemma {:induction false} JoinAppend(xs: seq<string>, ys: seq<string>, sep: string)
    requires |xs| >= 1 && |ys| >= 1
    ensures Join(xs + ys, sep) == Join(xs, sep) + sep + Join(ys, sep)
  {
    if |xs| == 1 {
      assert (xs + ys)[1..] == ys;
    } else {
      assert (xs + ys)[1..] == xs[1..] + ys;
      JoinAppend(xs[1..], ys, sep);
    }
  }

  /** A join whose last part is empty ends with the separator; a join of at least two
      parts starts with the first part followed by the separator. */
  lemma JoinEnds(parts: seq<string>, sep: string)
    requires |parts| >= 2
    ensures StartsWith(Join(parts, sep), parts[0] + sep)
    ensures parts[|parts| - 1] == "" ==> EndsWith(Join(parts, sep), sep)
  {
    var n := |parts|;
    assert parts == parts[..n - 1] + [parts[n - 1]];
    JoinAppend(parts[..n - 1], [parts[n - 1]], sep);
    var j := Join(parts, sep);
    assert j == parts[0] + sep + Join(parts[1..], sep);
    assert j[..|parts[0] + sep|] == parts[0] + sep;
    if parts[n - 1] == "" {
      assert j == Join(parts[..n - 1], sep) + sep;
    }
  }

  /** A character found in no part and not in the separator is not in the join. */
  lemma {:induction false} JoinLacks(parts: seq<string>, sep: string, c: char)
    requires c !in sep
    requires forall k :: 0 <= k < |parts| ==> c !in parts[k]
    ensures c !in Join(parts, sep)
    decreases |parts|
  {
    if |parts| >= 2 {
      JoinLacks(parts[1..], sep, c);
    }
  }

  /** The first position of `c` in `s`. */
  function IndexOf(s: string, c: char): (i: nat)
    requires c in s
    ensures i < |s| && s[i] == c && c !in s[..i]
  {
    if s[0] == c then 0
    else
      var j := IndexOf(s[1..], c);
      assert s[..j + 1] == [s[0]] + s[1..][..j];
      j + 1
  }

  /** Any position that holds `c` with no earlier `c` is the one IndexOf finds. */
  lemma IndexOfUnique(s: string, c: char, i: nat)
    requires i < |s| && s[i] == c && c !in s[..i]
    ensures IndexOf(s, c) == i
  {
  }

  /** Positions in a sequence with two leading elements and one trailing element. */
  lemma Bracketed<T>(a: T, b: T, mid: seq<T>, z: T)
    ensures var s := [a, b] + mid + [z];
      |s| == |mid| + 3 && s[0] == a && s[1] == b && s[|s| - 1] == z &&
      forall i :: 0 <= i < |mid| ==> s[i + 2] == mid[i]
  {
  }

  /** `s.split(c)` for a one-character separator: the maximal `c`-free pieces, always
      at least one. */
  function Split(s: string, c: char): (pieces: seq<string>)
    ensures |pieces| >= 1
    decreases |s|
  {
    if c in s then
      var i := IndexOf(s, c);
      [s[..i]] + Split(s[i + 1..], c)
    else [s]
  }

  /** The first separator of a string ends its first piece. */
  lemma SplitFirst(x: string, y: string, c: char)
    requires c !in x
    ensures Split(x + [c] + y, c) == [x] + Split(y, c)
  {
    var s := x + [c] + y;
    assert s[..|x|] == x;
    IndexOfUnique(s, c, |x|);
    assert s[|x| + 1..] == y;
  }

  /** When `a` holds the separator, both `a` and `a + [c] + b` split off the same first
      piece. */
  lemma SplitPeel(a: string, b: string, c: char, i: nat)
    requires c in a && i == IndexOf(a, c)
    ensures Split(a + [c] + b, c) == [a[..i]] + Split(a[i + 1..] + [c] + b, c)
    ensures Split(a, c) == [a[..i]] + Split(a[i + 1..], c)
  {
    var x, y := a[..i], a[i + 1..];
    assert a == x + [c] + y;
    assert a + [c] + b == x + [c] + (y + [c] + b);
    SplitFirst(x, y + [c] + b, c);
    SplitFirst(x, y, c);
  }

  /** Equals substituted into a concatenation. */
  lemma AppendEq<T>(s: seq<T>, a: seq<T>, b: seq<T>, x: seq<T>, y: seq<T>, whole: seq<T>)
    requires s == a + b && a == x && b == y && whole == x + y
    ensures s == whole
  {
  }

  /** Rebracketing a sequence that starts with one element `x`: when `s` is `x` before
      `t`, `t` is `l + r`, and `u` is `x` before `l`, then `s` is `u + r`. */
  lemma ConsAppend<T>(x: T, l: seq<T>, r: seq<T>, s: seq<T>, t: seq<T>, u: seq<T>)
    requires s == [x] + t && t == l + r && u == [x] + l
    ensures s == u + r
  {
    assert [x] + (l + r) == [x] + l + r;
  }

  /** A separator splits what stands on its two sides independently. */
  lemma {:induction false} SplitAround(a: string, b: string, c: char)
    ensures Split(a + [c] + b, c) == Split(a, c) + Split(b, c)
    decreases |a|
  {
    if c in a {
      var i := IndexOf(a, c);
      SplitPeel(a, b, c, i);
      SplitAround(a[i + 1..], b, c);
      ConsAppend(a[..i], Split(a[i + 1..], c), Split(b, c),
        Split(a + [c] + b, c), Split(a[i + 1..] + [c] + b, c), Split(a, c));
    } else {
      SplitFirst(a, b, c);
    }
  }

  /** A `c`-delimited piece in the middle of a string splits off as its own piece. */
  lemma DelimitedSplit(s: string, p: string, t: string, rest: string, c: char)
    requires c !in p && c !in t
    requires s == p + ([c] + t + [c] + rest)
    ensures Split(s, c) == [p, t] + Split(rest, c)
  {
    var r := Split(rest, c);
    assert s == p + [c] + (t + [c] + rest);
    assert Split(t + [c] + rest, c) == [t] + r by {
      SplitAround(t, rest, c);
    }
    assert Split(p + [c] + (t + [c] + rest), c) == [p] + ([t] + r) by {
      SplitAround(p, t + [c] + rest, c);
    }
    assert [p] + ([t] + r) == [p, t] + r;
  }

  /** Splitting undoes joining, as long as no part contains the separator. */
  lemma {:induction false} SplitJoin(parts: seq<string>, c: char)
    requires |parts| >= 1
    requires forall k :: 0 <= k < |parts| ==> c !in parts[k]
    ensures Split(Join(parts, [c]), c) == parts
    decreases |parts|
  {
    if |parts| >= 2 {
      SplitJoin(parts[1..], c);
      SplitJoinStep(parts, c);
    }
  }

  /** One step of SplitJoin: the first part comes off in front of the rest. */
  lemma SplitJoinStep(parts: seq<string>, c: char)
    requires |parts| >= 2 && c !in parts[0]
    requires Split(Join(parts[1..], [c]), c) == parts[1..]
    ensures Split(Join(parts, [c]), c) == parts
  {
    var j := Join(parts[1..], [c]);
    SplitAround(parts[0], j, c);
    assert Split(parts[0], c) == [parts[0]];
    assert [parts[0]] + parts[1..] == parts;
    AppendEq(Split(Join(parts, [c]), c), Split(parts[0], c), Split(j, c), [parts[0]], parts[1..], parts);
  }

  /** There is one more piece than there are separators. */
  lemma {:induction false} SplitCount(s: string, c: char)
    ensures |Split(s, c)| == multiset(s)[c] + 1
    decreases |s|
  {
    if c in s {
      var i := IndexOf(s, c);
      assert s == s[..i] + [c] + s[i + 1..];
      assert multiset(s) == multiset(s[..i]) + multiset{c} + multiset(s[i + 1..]);
      assert multiset(s[..i])[c] == 0;
      SplitCount(s[i + 1..], c);
    } else {
      assert multiset(s)[c] == 0;
    }
  }

  /** Joining `n` separator-free parts with a one-character separator uses exactly
      `n - 1` separators. */
  lemma SeparatorCount(parts: seq<string>, c: char)
    requires |parts| >= 1
    requires forall k :: 0 <= k < |parts| ==> c !in parts[k]
    ensures multiset(Join(parts, [c]))[c] == |parts| - 1
  {
    SplitJoin(parts, c);
    SplitCount(Join(parts, [c]), c);
  }

  /** The elements at odd positions: the text between the 1st and 2nd, the 3rd and 4th,
      ... occurrences of the separator, once a string has been split. */
  function Odds(xs: seq<string>): (r: seq<string>)
    ensures |r| == |xs| / 2
    decreases |xs|
  {
    if |xs| < 2 then [] else [xs[1]] + Odds(xs[2..])
  }

  /** The odd positions of `[p, x] + tail` are `x` followed by those of `tail`. */
  lemma OddsStep(pieces: seq<string>, p: string, x: string, tail: seq<string>,
                 odds: seq<string>, tailOdds: seq<string>)
    requires pieces == [p, x] + tail
    requires Odds(tail) == tailOdds
    requires odds == [x] + tailOdds
    ensures Odds(pieces) == odds
  {
    assert pieces[2..] == tail;
  }

  /** `parts.join("")` splits at every part boundary: part `i` stands at offset
      `|Join(parts[..i], "")|`. */
  lemma {:induction false} ConcatAt(parts: seq<string>, i: nat)
    requires i < |parts|
    ensures |Join(parts[..i], "")| + |parts[i]| <= |Join(parts, "")|
    ensures Join(parts, "")[|Join(parts[..i], "")|..|Join(parts[..i], "")| + |parts[i]|] == parts[i]
  {
    var pre := Join(parts[..i], "");
    var post := Join(parts[i..], "");
    if i == 0 {
      assert parts[i..] == parts;
    } else {
      assert parts == parts[..i] + parts[i..];
      JoinAppend(parts[..i], parts[i..], "");
    }
    assert Join(parts, "") == pre + post;
    assert StartsWith(post, parts[i]) by {
      if |parts[i..]| >= 2 {
        assert post == parts[i] + "" + Join(parts[i..][1..], "");
      }
    }
    assert (pre + post)[|pre|..|pre| + |parts[i]|] == post[..|parts[i]|];
  }

  /** Parts joined with nothing between them, framed by a lead and a close. */
  function Framed(lead: string, parts: seq<string>, close: string): string {
    lead + Join(parts, "") + close
  }

  /** `t` occurs in `s` starting at offset `o`. */
  predicate StandsAt(s: string, o: nat, t: string) {
    o + |t| <= |s| && s[o..o + |t|] == t
  }

  /** Part `i` of a framed concatenation `out` stands at offset `o`, right after the lead
      and the parts before it. */
  lemma FramedConcatAt(out: string, lead: string, parts: seq<string>, close: string, i: nat, o: nat)
    requires i < |parts|
    requires out == Framed(lead, parts, close)
    requires o == |lead| + |Join(parts[..i], "")|
    ensures StandsAt(out, o, parts[i])
  {
    ConcatAt(parts, i);
    var at := |Join(parts[..i], "")|;
    MiddleSlice(lead, Join(parts, ""), close, at, at + |parts[i]|);
  }

  /** Part `i` of parts joined after a lead stands right after the lead and the parts
      before it. */
  lemma LeadConcatAt(lead: string, parts: seq<string>, i: nat)
    requires i < |parts|
    ensures StandsAt(lead + Join(parts, ""), |lead| + |Join(parts[..i], "")|, parts[i])
  {
    assert lead + Join(parts, "") == Framed(lead, parts, "");
    FramedConcatAt(lead + Join(parts, ""), lead, parts, "", i, |lead| + |Join(parts[..i], "")|);
  }

  /** `t` stands in `s` at offset `o` and is the last thing in it. */
  predicate EndsAt(s: string, o: nat, t: string) {
    StandsAt(s, o, t) && |s| == o + |t|
  }

  /** One more part in the prefix adds exactly that part's length: part `i` ends where
      part `i + 1` starts. */
  lemma JoinPrefixStep(parts: seq<string>, i: nat)
    requires i < |parts|
    ensures |Join(parts[..i + 1], "")| == |Join(parts[..i], "")| + |parts[i]|
  {
    assert parts[..i + 1] == parts[..i] + [parts[i]];
    if i >= 1 {
      JoinAppend(parts[..i], [parts[i]], "");
    }
  }

  /** The close of a framed concatenation stands right after the last part, and ends it:
      nothing follows. */
  lemma FramedClose(out: string, lead: string, parts: seq<string>, close: string, o: nat)
    requires out == Framed(lead, parts, close)
    requires o == |lead| + |Join(parts[..|parts|], "")|
    ensures EndsAt(out, o, close)
  {
    assert parts[..|parts|] == parts;
    StandsEnd(lead + Join(parts, ""), close);
  }

  /** The joined length of a prefix grows with the prefix. */
  lemma {:induction false} ConcatPrefixGrows(parts: seq<string>, i: nat, j: nat)
    requires i < j <= |parts|
    requires forall k :: 0 <= k < |parts| ==> |parts[k]| >= 1
    ensures |Join(parts[..i], "")| < |Join(parts[..j], "")|
    decreases j - i
  {
    var q := parts[..j];
    if i == 0 {
      assert q == q[..j - 1] + [q[j - 1]];
      if j >= 2 {
        JoinAppend(q[..j - 1], [q[j - 1]], "");
      }
    } else {
      assert q[..i] == parts[..i];
      assert q == q[..i] + q[i..];
      JoinAppend(q[..i], q[i..], "");
      assert |Join(q[i..], "")| >= 1 by {
        if |q[i..]| >= 2 {
          assert Join(q[i..], "") == q[i] + "" + Join(q[i..][1..], "");
        }
      }
    }
  }

  /** A piece between two others stands right after the first. */
  lemma StandsBetween(a: string, b: string, z: string)
    ensures StandsAt(a + b + z, |a|, b)
  {
    assert (a + b + z)[|a|..|a| + |b|] == b;
  }

  /** The first of two pieces stands at the start. */
  lemma StandsStart(a: string, b: string)
    ensures StandsAt(a + b, 0, a)
  {
    assert (a + b)[0..|a|] == a;
  }

  /** The second of two pieces stands right after the first. */
  lemma StandsEnd(a: string, b: string)
    ensures StandsAt(a + b, |a|, b)
  {
    assert (a + b)[|a|..] == b;
  }

  /** Where `a + b` stands, `a` stands and `b` follows right after it. */
  lemma StandsPair(s: string, o: nat, a: string, b: string)
    requires StandsAt(s, o, a + b)
    ensures StandsAt(s, o, a) && StandsAt(s, o + |a|, b)
  {
    StandsStart(a, b);
    StandsEnd(a, b);
    StandsWithin(s, o, a + b, 0, a);
    StandsWithin(s, o, a + b, |a|, b);
  }

  /** What stands in `s` still stands there when text is appended. */
  lemma StandsLeft(s: string, o: nat, t: string, z: string)
    requires StandsAt(s, o, t)
    ensures StandsAt(s + z, o, t)
  {
    assert (s + z)[o..o + |t|] == s[o..o + |t|];
  }

  /** `u` at `p` in `t`, and `t` at `o` in `s`, puts `u` at `o + p` in `s`. */
  lemma StandsWithin(s: string, o: nat, t: string, p: nat, u: string)
    requires StandsAt(s, o, t) && StandsAt(t, p, u)
    ensures StandsAt(s, o + p, u)
  {
    forall k | 0 <= k < |u| ensures s[o + p + k] == u[k] {
      assert t[p + k] == u[k];
      assert s[o..o + |t|][p + k] == s[o + p + k];
    }
    assert s[o + p..o + p + |u|] == u;
  }

  // ----- reading text back -----

  /** The text after the first `c` in `s`; empty when `s` holds no `c`. */
  function After(s: string, c: char): (r: string)
    ensures |r| <= |s|
    decreases |s|
  {
    if |s| == 0 then "" else if s[0] == c then s[1..] else After(s[1..], c)
  }

  /** The text before the first `c` in `s`: a prefix free of `c`, followed in `s` by a
      `c` unless it is all of `s`. */
  function Before(s: string, c: char): (r: string)
    ensures StartsWith(s, r) && c !in r
    ensures |r| < |s| ==> s[|r|] == c
    decreases |s|
  {
    if |s| == 0 || s[0] == c then ""
    else
      var r := Before(s[1..], c);
      assert ([s[0]] + r)[1..] == r;
      [s[0]] + r
  }

  /** A string that holds `c` is the text before its first `c`, that `c`, and the text
      after it; one that does not has everything before and nothing after. */
  lemma {:induction false} AroundFirst(s: string, c: char)
    ensures c in s ==> s == Before(s, c) + [c] + After(s, c)
    ensures c !in s ==> Before(s, c) == s && After(s, c) == ""
    decreases |s|
  {
    if |s| > 0 {
      if s[0] == c {
        AroundHead(s, c);
      } else {
        AroundFirst(s[1..], c);
        AroundStep(s, c);
      }
    }
  }

  lemma AroundHead(s: string, c: char)
    requires |s| > 0 && s[0] == c
    ensures s == Before(s, c) + [c] + After(s, c)
  {
    assert s == [s[0]] + s[1..];
  }

  lemma AroundStep(s: string, c: char)
    requires |s| > 0 && s[0] != c
    requires c in s[1..] ==> s[1..] == Before(s[1..], c) + [c] + After(s[1..], c)
    requires c !in s[1..] ==> Before(s[1..], c) == s[1..] && After(s[1..], c) == ""
    ensures c in s ==> s == Before(s, c) + [c] + After(s, c)
    ensures c !in s ==> Before(s, c) == s && After(s, c) == ""
  {
    var t, b, a := s[1..], Before(s[1..], c), After(s[1..], c);
    assert s == [s[0]] + t;
    assert Before(s, c) == [s[0]] + b;
    assert After(s, c) == a;
    assert c in s <==> c in t;
    if c in t {
      Regroup1(s, [s[0]], t, b, [c], a);
    }
  }

  /** `s = h + t` with `t = b + m + a` is `(h + b) + m + a`. */
  lemma Regroup1(s: string, h: string, t: string, b: string, m: string, a: string)
    requires s == h + t && t == b + m + a
    ensures s == h + b + m + a
  {
  }

  /** Reading past text that holds no `c`. */
  lemma {:induction false} AfterSkip(x: string, y: string, c: char)
    requires c !in x
    ensures After(x + y, c) == After(y, c)
    decreases |x|
  {
    if x == [] {
      assert x + y == y;
    } else {
      assert (x + y)[1..] == x[1..] + y;
      AfterSkip(x[1..], y, c);
    }
  }

  /** Text appended after the first `c` stays after it. */
  lemma {:induction false} AfterWithin(x: string, y: string, c: char)
    requires c in x
    ensures After(x + y, c) == After(x, c) + y
    decreases |x|
  {
    assert (x + y)[1..] == x[1..] + y;
    if x[0] != c {
      AfterWithin(x[1..], y, c);
    }
  }

  /** Text free of `c` in front of a string is part of what stands before its first `c`. */
  lemma {:induction false} BeforeSkip(x: string, y: string, c: char)
    requires c !in x
    ensures Before(x + y, c) == x + Before(y, c)
    decreases |x|
  {
    if x == [] {
      assert x + y == y;
    } else {
      assert (x + y)[1..] == x[1..] + y;
      BeforeSkip(x[1..], y, c);
      assert x == [x[0]] + x[1..];
    }
  }

  /** The integer written right after the first `mark` and one space, up to the next
      space. */
  function NumberAfter(s: string, mark: char): Option<int> {
    ParseInt(Before(After(After(s, mark), ' '), ' '))
  }

  /** A numeral that follows the first `mark` and a space, and is followed by a space,
      reads back as its integer. */
  lemma NumberAfterReads(s: string, mark: char, n: int, post: string)
    requires After(s, mark) == " " + (IntToString(n) + post)
    requires |post| >= 1 && post[0] == ' '
    ensures NumberAfter(s, mark) == Some(n)
  {
    var x := IntToString(n) + post;
    assert After(" " + x, ' ') == x;
    NumeralFree(n, ' ');
    BeforeSkip(IntToString(n), post, ' ');
    assert Before(post, ' ') == "";
    assert IntToString(n) + "" == IntToString(n);
    IntRoundTrip(n);
  }

  /** Regrouping a four-piece concatenation. */
  lemma Regroup<T>(a: seq<T>, b: seq<T>, c: seq<T>, d: seq<T>)
    ensures a + (b + c) + d == a + (b + (c + d))
  {
  }

  // ----- numbers -----

  function Digit(d: nat): (ch: char)
    requires d < 10
    ensures '0' <= ch <= '9'
  {
    ('0' as int + d) as char
  }

  function DigitValue(ch: char): (d: nat)
    requires '0' <= ch <= '9'
    ensures d < 10
  {
    ch as int - '0' as int
  }

  predicate AllDigits(s: string) {
    forall k :: 0 <= k < |s| ==> '0' <= s[k] <= '9'
  }

  /** The decimal numeral of `n`, most significant digit first, without leading zeros. */
  function NatToString(n: nat): (s: string)
    ensures Canonical(s)
    decreases n
  {
    if n < 10 then [Digit(n)] else NatToString(n / 10) + [Digit(n % 10)]
  }

  function ParseNat(s: string): nat
    requires AllDigits(s)
    decreases |s|
  {
    if |s| == 0 then 0 else ParseNat(s[..|s| - 1]) * 10 + DigitValue(s[|s| - 1])
  }

  /** `${n}` for an integral JavaScript number: a minus sign, then the numeral of `|n|`. */
  function IntToString(n: int): (s: string)
    ensures |s| >= 1 && (s[0] == '-' <==> n < 0)
    ensures Canonical(if n < 0 then s[1..] else s)
  {
    if n < 0 then
      var t := NatToString(-n);
      assert ("-" + t)[1..] == t;
      "-" + t
    else NatToString(n)
  }

  /** A numeral as IntToString writes one for a non-negative integer: digits only, and no
      leading zero unless the numeral is `0` itself. */
  predicate Canonical(d: string) {
    |d| >= 1 && AllDigits(d) && (|d| >= 2 ==> d[0] != '0')
  }

  /** The integer a numeral written by IntToString stands for, if `s` is one: an optional
      minus sign before a canonical numeral, and never `-0`. */
  function ParseInt(s: string): Option<int> {
    if |s| >= 2 && s[0] == '-' && Canonical(s[1..]) && s[1..] != "0" then
      Some(0 - ParseNat(s[1..]))
    else if Canonical(s) then Some(ParseNat(s))
    else None
  }

  lemma {:induction false} NatRoundTrip(n: nat)
    ensures ParseNat(NatToString(n)) == n
    decreases n
  {
    if n >= 10 {
      var s := NatToString(n);
      assert s[..|s| - 1] == NatToString(n / 10);
      NatRoundTrip(n / 10);
    }
  }

  /** Printing an integer loses nothing: the numeral reads back as the same integer. */
  lemma IntRoundTrip(n: int)
    ensures ParseInt(IntToString(n)) == Some(n)
  {
    var t := NatToString(if n < 0 then -n else n);
    NatRoundTrip(if n < 0 then -n else n);
    if n < 0 {
      ParseSigned(t);
    } else {
      ParseUnsigned(t);
    }
  }

  lemma ParseSigned(t: string)
    requires Canonical(t) && t != "0"
    ensures ParseInt("-" + t) == Some(0 - ParseNat(t))
  {
    assert ("-" + t)[1..] == t;
  }

  lemma ParseUnsigned(t: string)
    requires Canonical(t)
    ensures ParseInt(t) == Some(ParseNat(t))
  {
  }

  /** Reading loses nothing either: whatever ParseInt accepts is exactly the numeral
      IntToString writes for the value read, so a numeral read back is pinned character
      for character. */
  lemma ParseIntRoundTrip(s: string)
    ensures ParseInt(s).Some? ==> IntToString(ParseInt(s).value) == s
  {
    if |s| >= 2 && s[0] == '-' && Canonical(s[1..]) && s[1..] != "0" {
      var d := s[1..];
      CanonicalRoundTrip(d);
      assert ParseNat(d) != 0;
      assert s == "-" + d;
    } else if Canonical(s) {
      CanonicalRoundTrip(s);
    }
  }

  /** A canonical numeral is the rendering of the number it reads as. */
  lemma {:induction false} CanonicalRoundTrip(d: string)
    requires Canonical(d)
    ensures NatToString(ParseNat(d)) == d
    decreases |d|
  {
    if |d| >= 2 {
      var p := d[..|d| - 1];
      var v := DigitValue(d[|d| - 1]);
      assert Canonical(p);
      CanonicalRoundTrip(p);
      var m := ParseNat(p);
      assert m >= 1 by {
        if |p| == 1 {
          assert p[0] == d[0];
        } else {
          assert |NatToString(m)| >= 2;
        }
      }
      var n := m * 10 + v;
      assert n / 10 == m && n % 10 == v;
      assert Digit(v) == d[|d| - 1];
      assert d == p + [d[|d| - 1]];
    }
  }

  /** Numerals contain only digits and the minus sign: they never carry a separator. */
  lemma NumeralFree(n: int, c: char)
    requires c != '-' && !('0' <= c <= '9')
    ensures c !in IntToString(n)
  {
  }
}
