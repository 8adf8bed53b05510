/** Strings as JavaScript's `String.prototype.split` sees them, for a
    one-character separator, and the inverse `join`. */
module Text {

  /** Number of occurrences of `c` in `s`. */
  function Count(s: string, c: char): (n: nat)
    ensures n <= |s|
    ensures n == 0 <==> c !in s
  {
    if s == [] then 0
    else (if s[0] == c then 1 else 0) + Count(s[1..], c)
  }

  lemma {:induction false} CountAppend(a: string, b: string, c: char)
    ensures Count(a + b, c) == Count(a, c) + Count(b, c)
  {
    if a != [] {
      assert (a + b)[1..] == a[1..] + b;
      CountAppend(a[1..], b, c);
    } else {
      assert a + b == b;
    }
  }

  /** `s.split(sep)`: the maximal runs of `s` between separators, in order.
      As in JavaScript the result is never empty: "" splits to [""], and a
      string holding k separators splits into k + 1 segments. */
  function Split(s: string, sep: char): (parts: seq<string>)
    ensures |parts| == Count(s, sep) + 1
    ensures forall i :: 0 <= i < |parts| ==> sep !in parts[i]
  {
    if s == [] then [""]
    else
      var rest := Split(s[1..], sep);
      if s[0] == sep then [""] + rest
      else [[s[0]] + rest[0]] + rest[1..]
  }

  /** `parts.join(sep)` for a non-empty list. */
  function Join(parts: seq<string>, sep: char): (s: string)
    requires |parts| >= 1
  {
    if |parts| == 1 then parts[0]
    else parts[0] + [sep] + Join(parts[1..], sep)
  }

  lemma JoinTwo(a: string, b: string, sep: char)
    ensures Join([a, b], sep) == a + [sep] + b
  {
  }

  lemma JoinThree(a: string, b: string, c: string, sep: char)
    ensures Join([a, b, c], sep) == a + [sep] + b + [sep] + c
  {
    assert [a, b, c][1..] == [b, c];
    JoinTwo(b, c, sep);
  }

  /** The last element of a non-empty list, `xs.slice(-1)[0]`. */
  function Last<T>(xs: seq<T>): (x: T)
    requires |xs| >= 1
  {
    xs[|xs| - 1]
  }

  /** Prefixing the first segment prefixes the join. */
  lemma JoinExtendsHead(x: string, parts: seq<string>, sep: char)
    requires |parts| >= 1
    ensures Join([x + parts[0]] + parts[1..], sep) == x + Join(parts, sep)
  {
    var extended := [x + parts[0]] + parts[1..];
    if |parts| > 1 {
      assert extended[1..] == parts[1..];
    }
  }

  /** Joining the segments back with the separator gives the string again. */
  lemma {:induction false} JoinSplit(s: string, sep: char)
    ensures Join(Split(s, sep), sep) == s
  {
    if s != [] {
      var rest := Split(s[1..], sep);
      JoinSplit(s[1..], sep);
      if s[0] == sep {
        assert ([""] + rest)[1..] == rest;
      } else {
        JoinExtendsHead([s[0]], rest, sep);
      }
      assert s == [s[0]] + s[1..];
    }
  }

  /** A string free of the separator is a single segment. */
  lemma {:induction false} SplitWithoutSeparator(s: string, sep: char)
    requires sep !in s
    ensures Split(s, sep) == [s]
  {
    if s != [] {
      SplitWithoutSeparator(s[1..], sep);
      assert [s[0]] + s[1..] == s;
    }
  }

  /** A separator-free head followed by the separator splits off as one
      segment. */
  lemma {:induction false} SplitAfterHead(head: string, tail: string, sep: char)
    requires sep !in head
    ensures Split(head + [sep] + tail, sep) == [head] + Split(tail, sep)
  {
    var s := head + [sep] + tail;
    if head == [] {
      assert s[1..] == tail;
    } else {
      assert s[1..] == head[1..] + [sep] + tail;
      SplitAfterHead(head[1..], tail, sep);
      assert [head[0]] + head[1..] == head;
    }
  }

  /** Splitting a join of separator-free segments gives the segments back. */
  lemma {:induction false} SplitJoin(parts: seq<string>, sep: char)
    requires |parts| >= 1
    requires forall i :: 0 <= i < |parts| ==> sep !in parts[i]
    ensures Split(Join(parts, sep), sep) == parts
  {
    if |parts| == 1 {
      SplitWithoutSeparator(parts[0], sep);
    } else {
      SplitJoin(parts[1..], sep);
      SplitAfterHead(parts[0], Join(parts[1..], sep), sep);
      assert [parts[0]] + parts[1..] == parts;
    }
  }

  /** `head` is the text of `s` before its first `sep`, or all of `s` when
      `s` has none. */
  ghost predicate IsBeforeFirst(head: string, s: string, sep: char) {
    sep !in head && head <= s && (|head| < |s| ==> s[|head|] == sep)
  }

  /** `tail` is the text of `s` after its last `sep`, or all of `s` when
      `s` has none. */
  ghost predicate IsAfterLast(tail: string, s: string, sep: char) {
    sep !in tail && |tail| <= |s| && s[|s| - |tail|..] == tail
    && (|tail| < |s| ==> s[|s| - |tail| - 1] == sep)
  }

  /** Only one string is the text before the first separator. */
  lemma BeforeFirstUnique(h1: string, h2: string, s: string, sep: char)
    requires IsBeforeFirst(h1, s, sep) && IsBeforeFirst(h2, s, sep)
    ensures h1 == h2
  {
  }

  /** Only one string is the text after the last separator. */
  lemma AfterLastUnique(t1: string, t2: string, s: string, sep: char)
    requires IsAfterLast(t1, s, sep) && IsAfterLast(t2, s, sep)
    ensures t1 == t2
  {
  }

  /** The first segment of a split is the text before the first separator. */
  lemma {:induction false} SplitFirst(s: string, sep: char)
    ensures IsBeforeFirst(Split(s, sep)[0], s, sep)
  {
    if s != [] && s[0] != sep {
      SplitFirst(s[1..], sep);
    }
  }

  /** Text after the last separator of `s[1..]` is also that of `s`, unless
      it is all of `s[1..]` and `s[0]` is not a separator. */
  lemma AfterLastOfTail(tail: string, s: string, sep: char)
    requires s != [] && IsAfterLast(tail, s[1..], sep)
    requires |tail| == |s| - 1 ==> s[0] == sep
    ensures IsAfterLast(tail, s, sep)
  {
    assert s[|s| - |tail|..] == s[1..][|s| - 1 - |tail|..];
    if |tail| < |s| - 1 {
      assert s[|s| - |tail| - 1] == s[1..][|s| - 1 - |tail| - 1];
    }
  }

  /** The last segment of a split is the text after the last separator. */
  lemma {:induction false} SplitLast(s: string, sep: char)
    ensures IsAfterLast(Last(Split(s, sep)), s, sep)
  {
    if s != [] {
      var rest := Split(s[1..], sep);
      SplitLast(s[1..], sep);
      var tail := Last(rest);
      if s[0] != sep && |rest| == 1 {
        SplitWithoutSeparator(s[1..], sep);
        assert Last(Split(s, sep)) == [s[0]] + s[1..] == s;
      } else {
        assert Last(Split(s, sep)) == tail;
        if |tail| == |s| - 1 && s[0] != sep {
          assert false;
        }
        AfterLastOfTail(tail, s, sep);
      }
    }
  }
}
