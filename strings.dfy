/**
  The string operations of Rust's `str` that the bot relies on, over `seq<char>`:
  `find`, `split` and `join` on a one-character separator, `starts_with`,
  `trim_start_matches` / `trim_end_matches` on a character, and `replace`.
 */
module Strings {

  /** `s.find(c)`: the index of the first `c`, or `|s|` when there is none. */
  function Find(s: string, c: char): (i: nat)
    ensures i <= |s|
    ensures i < |s| ==> s[i] == c
    ensures forall j :: 0 <= j < i ==> s[j] != c
    ensures i == |s| <==> c !in s
  {
    if |s| == 0 then 0
    else if s[0] == c then 0
    else
      var i := 1 + Find(s[1..], c);
      assert forall j :: 1 <= j < i ==> s[j] == s[1..][j - 1];
      i
  }

  /** Number of occurrences of `c` in `s`. */
  function Count(s: string, c: char): (n: nat)
    ensures n <= |s|
    ensures n == 0 <==> c !in s
  {
    if |s| == 0 then 0
    else (if s[0] == c then 1 else 0) + Count(s[1..], c)
  }

  lemma {:induction false} CountAppend(a: string, b: string, c: char)
    ensures Count(a + b, c) == Count(a, c) + Count(b, c)
  {
    if |a| == 0 {
      assert a + b == b;
    } else {
      assert (a + b)[1..] == a[1..] + b;
      CountAppend(a[1..], b, c);
    }
  }

  lemma CountCons(x: char, s: string, c: char)
    ensures Count([x] + s, c) == (if x == c then 1 else 0) + Count(s, c)
  {
    assert ([x] + s)[1..] == s;
  }

  /** `s.split(sep).collect()`: always at least one piece, none containing `sep`. */
  function Split(s: string, sep: char): (parts: seq<string>)
    ensures |parts| == Count(s, sep) + 1
    ensures forall k :: 0 <= k < |parts| ==> sep !in parts[k]
  {
    if |s| == 0 then [""]
    else
      var rest := Split(s[1..], sep);
      if s[0] == sep then [""] + rest
      else [[s[0]] + rest[0]] + rest[1..]
  }

  /**
    `parts.join(sep)`: the text starts with the first piece, and joining
    separator-free pieces adds exactly one separator between neighbours.
   */
  function Join(parts: seq<string>, sep: char): (r: string)
    ensures |parts| >= 1 ==> |parts[0]| <= |r| && r[..|parts[0]|] == parts[0]
    ensures |parts| >= 1 && (forall k :: 0 <= k < |parts| ==> sep !in parts[k]) ==> Count(r, sep) == |parts| - 1
  {
    if |parts| == 0 then ""
    else if |parts| == 1 then parts[0]
    else
      var rest := Join(parts[1..], sep);
      CountAppend(parts[0] + [sep], rest, sep);
      CountAppend(parts[0], [sep], sep);
      assert Count([sep], sep) == 1 by { assert [sep][1..] == ""; }
      parts[0] + [sep] + rest
  }

  /** Gluing a character to the front of the first piece glues it to the front of the join. */
  lemma JoinGlueHead(x: char, rest: seq<string>, sep: char)
    requires |rest| >= 1
    ensures Join([[x] + rest[0]] + rest[1..], sep) == [x] + Join(rest, sep)
  {
    var parts := [[x] + rest[0]] + rest[1..];
    assert parts[0] == [x] + rest[0] && parts[1..] == rest[1..];
    if |rest| > 1 {
      assert Join(rest, sep) == rest[0] + [sep] + Join(rest[1..], sep);
    }
  }

  /** Joining the pieces of a split gives back the string. */
  lemma {:induction false} JoinSplit(s: string, sep: char)
    ensures Join(Split(s, sep), sep) == s
  {
    if |s| > 0 {
      var rest := Split(s[1..], sep);
      JoinSplit(s[1..], sep);
      if s[0] == sep {
        assert ([""] + rest)[1..] == rest;
        assert Join([""] + rest, sep) == "" + [sep] + Join(rest, sep);
      } else {
        JoinGlueHead(s[0], rest, sep);
      }
      assert s == [s[0]] + s[1..];
    }
  }

  /** Splitting a text at a separator after a separator-free prefix: the prefix, then the pieces of the rest. */
  lemma {:induction false} SplitAt(a: string, sep: char, b: string)
    requires sep !in a
    ensures Split(a + [sep] + b, sep) == [a] + Split(b, sep)
  {
    var s := a + [sep] + b;
    if |a| == 0 {
      assert s == [sep] + b && s[1..] == b;
    } else {
      var t := a[1..] + [sep] + b;
      assert s[0] == a[0] && s[1..] == t;
      SplitAt(a[1..], sep, b);
      assert [a[0]] + a[1..] == a;
    }
  }

  /** Splitting at the first separator: the text before it, then the pieces of the text after it. */
  lemma {:induction false} SplitAtFind(s: string, sep: char)
    requires sep in s
    ensures Split(s, sep) == [s[..Find(s, sep)]] + Split(s[Find(s, sep) + 1..], sep)
  {
    SplitAtIndex(s, sep, Find(s, sep));
  }

  /** Splitting at a separator at index `i` with none before it. */
  lemma {:induction false} SplitAtIndex(s: string, sep: char, i: nat)
    requires i < |s| && s[i] == sep && forall j :: 0 <= j < i ==> s[j] != sep
    ensures Split(s, sep) == [s[..i]] + Split(s[i + 1..], sep)
  {
    if i == 0 {
      assert s[..0] == "";
    } else {
      var t := s[1..];
      SplitAtIndex(t, sep, i - 1);
      assert t[..i - 1] == s[1..i] && t[i..] == s[i + 1..];
      assert s[..i] == [s[0]] + t[..i - 1];
    }
  }

  /** Without a separator there is one piece, the whole string. */
  lemma {:induction false} SplitAbsent(s: string, sep: char)
    requires sep !in s
    ensures Split(s, sep) == [s]
  {
    if |s| > 0 {
      SplitAbsent(s[1..], sep);
      assert s == [s[0]] + s[1..];
    }
  }

  /** The first piece of a split is the text before the first separator. */
  lemma FirstPiece(s: string, sep: char)
    ensures Split(s, sep)[0] == s[..Find(s, sep)]
  {
    if sep in s {
      SplitAtFind(s, sep);
    } else {
      SplitAbsent(s, sep);
    }
  }

  /** The first separator of `a + [sep] + b` is the one after `a`. */
  lemma FindAfterPrefix(a: string, sep: char, b: string)
    requires sep !in a
    ensures Find(a + [sep] + b, sep) == |a|
    ensures (a + [sep] + b)[..|a|] == a && (a + [sep] + b)[|a| + 1..] == b
  {
    var s := a + [sep] + b;
    assert s[|a|] == sep;
    assert forall j :: 0 <= j < |a| ==> s[j] == a[j];
  }

  /** One step of `Split`, on a text given as its first character and the rest. */
  lemma SplitCons(c: char, t: string, sep: char)
    ensures Split([c] + t, sep) ==
      if c == sep then [""] + Split(t, sep) else [[c] + Split(t, sep)[0]] + Split(t, sep)[1..]
  {
    assert ([c] + t)[1..] == t;
  }

  lemma ConsAssoc<T>(c: T, t: seq<T>, y: seq<T>)
    ensures [c] + t + y == [c] + (t + y)
  {
  }

  /** Replacing the last element of `[a] + r` by a sequence `m`. */
  lemma ConsLast<T>(a: T, r: seq<T>, m: seq<T>)
    requires |r| >= 1
    ensures var p := [a] + r; p[..|p| - 1] + m == [a] + (r[..|r| - 1] + m) && p[|p| - 1] == r[|r| - 1]
  {
    var p := [a] + r;
    assert p[..|p| - 1] == [a] + r[..|r| - 1];
  }

  /** Replacing the last element of `[a] + r[1..]` by `m`, where `r` has at least two elements. */
  lemma TailLast<T>(a: T, r: seq<T>, m: seq<T>)
    requires |r| >= 2
    ensures var p, q := [a] + r[1..], r[..|r| - 1] + m;
      q[0] == r[0] && p[..|p| - 1] + m == [a] + q[1..] && p[|p| - 1] == r[|r| - 1]
  {
    var p, q := [a] + r[1..], r[..|r| - 1] + m;
    assert q[1..] == r[1..|r| - 1] + m;
    assert p[..|p| - 1] == [a] + r[1..|r| - 1];
  }

  /**
    Splitting a text that has grown at its end: the complete pieces of the
    old text stay as they were, and its last piece is split again together
    with what was appended.
   */
  lemma {:induction false} SplitAppend(x: string, y: string, sep: char, p: seq<string>)
    requires p == Split(x, sep)
    ensures Split(x + y, sep) == p[..|p| - 1] + Split(p[|p| - 1] + y, sep)
    decreases |x|
  {
    if |x| == 0 {
      SplitAppendEmpty(x, y, sep, p);
    } else {
      var r := Split(x[1..], sep);
      SplitAppend(x[1..], y, sep, r);
      DropAppend(x, y);
      if x[0] == sep {
        SplitAppendSep(x, y, sep, r, p);
      } else if |r| == 1 {
        SplitAppendOne(x, y, sep, r, p);
      } else {
        SplitAppendMany(x, y, sep, r, p);
      }
    }
  }

  lemma SplitAppendEmpty(x: string, y: string, sep: char, p: seq<string>)
    requires p == Split(x, sep)
    requires |x| == 0
    ensures Split(x + y, sep) == p[..|p| - 1] + Split(p[|p| - 1] + y, sep)
  {
    assert x + y == y && p[0] + y == y;
    assert p[..0] == [];
  }

  /** The step of `SplitAppend` when the text starts with the separator. */
  lemma SplitAppendSep(x: string, y: string, sep: char, r: seq<string>, p: seq<string>)
    requires p == Split(x, sep)
    requires |x| > 0 && x[0] == sep && r == Split(x[1..], sep) && (x + y)[1..] == x[1..] + y
    requires Split(x[1..] + y, sep) == r[..|r| - 1] + Split(r[|r| - 1] + y, sep)
    ensures Split(x + y, sep) == p[..|p| - 1] + Split(p[|p| - 1] + y, sep)
  {
    ConsLast("", r, Split(r[|r| - 1] + y, sep));
  }

  /** The step of `SplitAppend` when the text has no separator after its first character. */
  lemma SplitAppendOne(x: string, y: string, sep: char, r: seq<string>, p: seq<string>)
    requires p == Split(x, sep)
    requires |x| > 0 && x[0] != sep && r == Split(x[1..], sep) && |r| == 1 && (x + y)[1..] == x[1..] + y
    requires Split(x[1..] + y, sep) == r[..|r| - 1] + Split(r[|r| - 1] + y, sep)
    ensures Split(x + y, sep) == p[..|p| - 1] + Split(p[|p| - 1] + y, sep)
  {
    var m := Split(r[0] + y, sep);
    ConsAssoc(x[0], r[0], y);
    SplitCons(x[0], r[0] + y, sep);
    assert r[..0] + m == m;
  }

  /** The step of `SplitAppend` when the rest of the text holds a separator and the text does not start with one. */
  lemma SplitAppendMany(x: string, y: string, sep: char, r: seq<string>, p: seq<string>)
    requires p == Split(x, sep)
    requires |x| > 0 && x[0] != sep && r == Split(x[1..], sep) && |r| >= 2 && (x + y)[1..] == x[1..] + y
    requires Split(x[1..] + y, sep) == r[..|r| - 1] + Split(r[|r| - 1] + y, sep)
    ensures Split(x + y, sep) == p[..|p| - 1] + Split(p[|p| - 1] + y, sep)
  {
    TailLast([x[0]] + r[0], r, Split(r[|r| - 1] + y, sep));
  }

  lemma DropAppend<T>(x: seq<T>, y: seq<T>)
    requires |x| > 0
    ensures (x + y)[0] == x[0] && (x + y)[1..] == x[1..] + y
  {
  }

  /** Splitting a join of separator-free pieces gives back the pieces. */
  lemma {:induction false} SplitJoin(parts: seq<string>, sep: char)
    requires |parts| >= 1
    requires forall k :: 0 <= k < |parts| ==> sep !in parts[k]
    ensures Split(Join(parts, sep), sep) == parts
  {
    if |parts| == 1 {
      SplitAbsent(parts[0], sep);
    } else {
      SplitJoin(parts[1..], sep);
      SplitJoinStep(parts, sep, Join(parts[1..], sep));
    }
  }

  /** The step of `SplitJoin`: a separator-free first piece in front of the join of the rest. */
  lemma SplitJoinStep(parts: seq<string>, sep: char, rest: string)
    requires |parts| >= 2 && sep !in parts[0]
    requires rest == Join(parts[1..], sep) && Split(rest, sep) == parts[1..]
    ensures Split(Join(parts, sep), sep) == parts
  {
    assert Join(parts, sep) == parts[0] + [sep] + rest;
    SplitAt(parts[0], sep, rest);
    assert parts == [parts[0]] + parts[1..];
  }

  /**
    The index just past the `n`-th occurrence of `sep` in `s` (0 when `n` is
    0): the text before it holds exactly `n` separators and ends with one.
   */
  function SepEnd(s: string, sep: char, n: nat): (k: nat)
    requires n <= Count(s, sep)
    ensures k <= |s|
    ensures Count(s[..k], sep) == n
    ensures if n > 0 then 0 < k && s[k - 1] == sep else k == 0
  {
    if n == 0 then
      assert s[..0] == [];
      0
    else
      var j := if s[0] == sep then SepEnd(s[1..], sep, n - 1) else SepEnd(s[1..], sep, n);
      CountPrefixCons(s, sep, j);
      1 + j
  }

  /** Counting in a prefix of `s` that is one character longer than a prefix of `s[1..]`. */
  lemma CountPrefixCons(s: string, sep: char, j: nat)
    requires j < |s|
    ensures Count(s[..1 + j], sep) == (if s[0] == sep then 1 else 0) + Count(s[1..][..j], sep)
  {
    CountCons(s[0], s[1..][..j], sep);
    assert s[..1 + j] == [s[0]] + s[1..][..j];
  }

  /** The text that follows the `n`-th occurrence of `sep` in `s` (all of `s` when `n` is 0). */
  function AfterSep(s: string, sep: char, n: nat): string
    requires n <= Count(s, sep)
  {
    s[SepEnd(s, sep, n)..]
  }

  /**
    Joining the pieces of a split from the `n`-th on gives the text after the
    `n`-th separator: `parts[n..].join(" ")` is a suffix of the line.
   */
  lemma {:induction false} JoinSplitSuffix(s: string, sep: char, n: nat)
    requires n < |Split(s, sep)|
    ensures Join(Split(s, sep)[n..], sep) == AfterSep(s, sep, n)
  {
    if n == 0 {
      JoinSplit(s, sep);
      assert Split(s, sep)[0..] == Split(s, sep);
      assert s[0..] == s;
    } else {
      var m := if s[0] == sep then n - 1 else n;
      SplitTail(s, sep, n);
      AfterSepTail(s, sep, n);
      JoinSplitSuffix(s[1..], sep, m);
    }
  }

  /** From the second piece on, the pieces of `s` are those of `s[1..]`. */
  lemma SplitTail(s: string, sep: char, n: nat)
    requires 0 < n < |Split(s, sep)|
    ensures |s| > 0
    ensures var m := if s[0] == sep then n - 1 else n;
      m < |Split(s[1..], sep)| && Split(s, sep)[n..] == Split(s[1..], sep)[m..]
  {
    var rest := Split(s[1..], sep);
    if s[0] == sep {
      DropCons("", rest, n);
    } else {
      DropCons([s[0]] + rest[0], rest[1..], n);
      assert rest[1..][n - 1..] == rest[n..];
    }
  }

  /** Dropping `n > 0` elements of `[x] + r` drops `n - 1` of `r`. */
  lemma DropCons(x: string, r: seq<string>, n: nat)
    requires 0 < n <= |r| + 1
    ensures ([x] + r)[n..] == r[n - 1..]
  {
    var l := [x] + r;
    assert forall k :: 0 <= k < |l| - n ==> l[n..][k] == r[n - 1..][k];
  }

  /** Skipping `n > 0` separators of `s` is skipping those left in `s[1..]`. */
  lemma AfterSepTail(s: string, sep: char, n: nat)
    requires 0 < n <= Count(s, sep)
    ensures |s| > 0
    ensures var m := if s[0] == sep then n - 1 else n;
      m <= Count(s[1..], sep) && AfterSep(s, sep, n) == AfterSep(s[1..], sep, m)
  {
    var m := if s[0] == sep then n - 1 else n;
    assert s[SepEnd(s, sep, n)..] == s[1..][SepEnd(s[1..], sep, m)..];
  }

  /** `s.starts_with(p)`. */
  predicate StartsWith(s: string, p: string)
    ensures StartsWith(s, p) <==> |p| <= |s| && forall i :: 0 <= i < |p| ==> s[i] == p[i]
  {
    |p| <= |s| && s[..|p|] == p
  }

  /** `p` occurs somewhere in `s`. */
  predicate Contains(s: string, p: string)
    decreases |s|
  {
    StartsWith(s, p) || (|s| > 0 && Contains(s[1..], p))
  }

  /** `s.trim_start_matches(c)`: `s` without its leading run of `c`. */
  function TrimStartMatches(s: string, c: char): (r: string)
    ensures |r| <= |s| && r == s[|s| - |r|..]
    ensures |r| > 0 ==> r[0] != c
    ensures forall j :: 0 <= j < |s| - |r| ==> s[j] == c
  {
    if |s| > 0 && s[0] == c then
      var r := TrimStartMatches(s[1..], c);
      assert forall j :: 1 <= j < |s| - |r| ==> s[j] == s[1..][j - 1];
      r
    else s
  }

  /** `s.trim_end_matches(c)`: `s` without its trailing run of `c`. */
  function TrimEndMatches(s: string, c: char): (r: string)
    ensures |r| <= |s| && r == s[..|r|]
    ensures |r| > 0 ==> r[|r| - 1] != c
    ensures forall j :: |r| <= j < |s| ==> s[j] == c
  {
    if |s| > 0 && s[|s| - 1] == c then TrimEndMatches(s[..|s| - 1], c)
    else s
  }

  /** The text before the first `c` holds no `c`. */
  lemma BeforeFind(s: string, c: char)
    ensures c !in s[..Find(s, c)]
  {
    var i := Find(s, c);
    assert forall j :: 0 <= j < i ==> s[..i][j] == s[j];
  }

  /** Trimming a character that does not occur changes nothing. */
  lemma TrimEndAbsent(s: string, c: char)
    requires c !in s
    ensures TrimEndMatches(s, c) == s
  {
  }

  /**
    `s.replace(pat, rep)`: every non-overlapping occurrence of `pat`, scanning
    from the left, replaced by `rep`.
   */
  function ReplaceAll(s: string, pat: string, rep: string): (r: string)
    requires |pat| > 0
    ensures |pat| == |rep| ==> |r| == |s|
    decreases |s|
  {
    if StartsWith(s, pat) then rep + ReplaceAll(s[|pat|..], pat, rep)
    else if |s| == 0 then ""
    else [s[0]] + ReplaceAll(s[1..], pat, rep)
  }

  /** A string without `pat` is left as it is by `ReplaceAll`. */
  lemma {:induction false} ReplaceAbsent(s: string, pat: string, rep: string)
    requires |pat| > 0 && !Contains(s, pat)
    ensures ReplaceAll(s, pat, rep) == s
    decreases |s|
  {
    if |s| > 0 {
      ReplaceAbsent(s[1..], pat, rep);
      assert s == [s[0]] + s[1..];
    }
  }

  /**
    A prefix `w` of the result that does not contain the first character of
    `rep` cannot come from a replacement, so it was already a prefix of `s`.
   */
  lemma {:induction false} ReplacedPrefix(s: string, pat: string, rep: string, w: string)
    requires |pat| > 0 && |rep| > 0 && rep[0] !in w
    requires StartsWith(ReplaceAll(s, pat, rep), w)
    ensures StartsWith(s, w)
    decreases |w|
  {
    if |w| > 0 {
      var r := ReplaceAll(s, pat, rep);
      assert r[0] == w[0];
      if StartsWith(s, pat) {
        assert false;
      } else {
        assert |s| > 0;
        var r' := ReplaceAll(s[1..], pat, rep);
        assert r == [s[0]] + r';
        assert w[1..] == r'[..|w| - 1];
        ReplacedPrefix(s[1..], pat, rep, w[1..]);
        assert forall k :: 0 < k < |w| ==> s[k] == s[1..][..|w| - 1][k - 1] == w[1..][k - 1];
        assert s[..|w|] == w;
      }
    }
  }

  /** A prefix free of `p[0]` can be skipped when looking for `p`. */
  lemma {:induction false} ContainsSkip(a: string, x: string, p: string)
    requires |p| > 0 && p[0] !in a
    ensures Contains(a + x, p) <==> Contains(x, p)
    decreases |a|
  {
    if |a| > 0 {
      assert (a + x)[0] == a[0];
      assert !StartsWith(a + x, p);
      assert (a + x)[1..] == a[1..] + x;
      ContainsSkip(a[1..], x, p);
    } else {
      assert a + x == x;
    }
  }

  /**
    Replacing "PING" by "PONG" leaves no "PING" behind: no occurrence can
    straddle a "PONG", since none of its suffixes is a prefix of "PING".
   */
  lemma {:induction false} PongLeavesNoPing(s: string)
    ensures !Contains(ReplaceAll(s, "PING", "PONG"), "PING")
    decreases |s|
  {
    var r := ReplaceAll(s, "PING", "PONG");
    if StartsWith(s, "PING") {
      var x := ReplaceAll(s[4..], "PING", "PONG");
      PongLeavesNoPing(s[4..]);
      assert r == "PONG" + x;
      assert !StartsWith(r, "PING") by { assert r[1] == 'O'; }
      assert r[1..] == "ONG" + x;
      ContainsSkip("ONG", x, "PING");
    } else if |s| > 0 {
      var x := ReplaceAll(s[1..], "PING", "PONG");
      PongLeavesNoPing(s[1..]);
      assert r == [s[0]] + x;
      assert r[1..] == x;
      if StartsWith(r, "PING") {
        assert x[..3] == "ING";
        ReplacedPrefix(s[1..], "PING", "PONG", "ING");
        assert false;
      }
    }
  }
}
