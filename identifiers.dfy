/** Dot-separated identifier lists: string.Split with one separator and its inverse. */
module Identifiers {
  import opened Ascii

  /** string.Split(sep): the pieces between separators, kept even when empty,
      so "" gives [""] and "a." gives ["a", ""]. */
  function Split(s: string, sep: char): (parts: seq<string>)
    ensures |parts| >= 1
    ensures forall i :: 0 <= i < |parts| ==> sep !in parts[i]
    decreases |s|
  {
    if s == [] then [""]
    else
      var rest := Split(s[1..], sep);
      if s[0] == sep then [""] + rest
      else [[s[0]] + rest[0]] + rest[1..]
  }

  /** string.Join(sep, parts). */
  function Join(parts: seq<string>, sep: char): string
    requires |parts| >= 1
  {
    if |parts| == 1 then parts[0] else parts[0] + [sep] + Join(parts[1..], sep)
  }

  /** Joining the pieces of a split restores the text. */
  lemma {:induction false} JoinSplit(s: string, sep: char)
    ensures Join(Split(s, sep), sep) == s
    decreases |s|
  {
    if s != [] {
      var rest := Split(s[1..], sep);
      JoinSplit(s[1..], sep);
      if s[0] == sep {
        assert Split(s, sep)[1..] == rest;
      } else {
        var parts := Split(s, sep);
        assert parts[1..] == rest[1..];
        if |rest| > 1 {
          assert Join(rest, sep) == rest[0] + [sep] + Join(rest[1..], sep);
        }
      }
    }
  }

  /** Text without the separator is one piece. */
  lemma {:induction false} SplitWhole(s: string, sep: char)
    requires sep !in s
    ensures Split(s, sep) == [s]
    decreases |s|
  {
    if s != [] {
      SplitWhole(s[1..], sep);
      assert [s[0]] + s[1..] == s;
    }
  }

  /** A separator after a separator-free head ends the first piece there. */
  lemma {:induction false} SplitAfterHead(head: string, tail: string, sep: char)
    requires sep !in head
    ensures Split(head + [sep] + tail, sep) == [head] + Split(tail, sep)
    decreases |head|
  {
    var s := head + [sep] + tail;
    if head != [] {
      assert s[1..] == head[1..] + [sep] + tail;
      SplitAfterHead(head[1..], tail, sep);
      assert [head[0]] + head[1..] == head;
    } else {
      assert s[1..] == tail;
    }
  }

  /** Splitting a join of separator-free pieces gives the pieces back. */
  lemma {:induction false} SplitJoin(parts: seq<string>, sep: char)
    requires |parts| >= 1
    requires forall i :: 0 <= i < |parts| ==> sep !in parts[i]
    ensures Split(Join(parts, sep), sep) == parts
    decreases |parts|
  {
    if |parts| == 1 {
      SplitWhole(parts[0], sep);
    } else {
      SplitJoin(parts[1..], sep);
      SplitAfterHead(parts[0], Join(parts[1..], sep), sep);
      assert [parts[0]] + parts[1..] == parts;
    }
  }

  /** Text with two adjacent separators, as `s.Contains("..")` finds it. */
  predicate ContainsDoubleDot(s: string) {
    exists i :: 0 <= i < |s| - 1 && s[i] == '.' && s[i + 1] == '.'
  }

  function UpperAll(parts: seq<string>): (r: seq<string>)
    ensures |r| == |parts|
  {
    seq(|parts|, i requires 0 <= i < |parts| => Upper(parts[i]))
  }

  /** Case folding commutes with splitting on '.'. */
  lemma {:induction false} SplitUpper(s: string)
    ensures Split(Upper(s), '.') == UpperAll(Split(s, '.'))
    decreases |s|
  {
    if s != [] {
      SplitUpper(s[1..]);
      assert Upper(s)[1..] == Upper(s[1..]);
      var rest := Split(s[1..], '.');
      if s[0] != '.' {
        var u := Upper(s);
        assert u[0] == ToUpper(s[0]) && u[0] != '.';
        assert Split(u, '.') == [[u[0]] + UpperAll(rest)[0]] + UpperAll(rest)[1..];
        UpperAppend([s[0]], rest[0]);
        assert Upper([s[0]]) == [u[0]];
        assert Split(s, '.') == [[s[0]] + rest[0]] + rest[1..];
        assert UpperAll([[s[0]] + rest[0]] + rest[1..]) == [Upper([s[0]] + rest[0])] + UpperAll(rest)[1..];
      } else {
        assert UpperAll([""] + rest) == [""] + UpperAll(rest);
      }
    }
  }

  /** Pieces of equal length pairwise, over the shorter list, make the joined
      lengths compare as the piece counts do. */
  lemma {:induction false} JoinLengthOrder(xs: seq<string>, ys: seq<string>, sep: char)
    requires |xs| >= 1 && |ys| >= 1
    requires forall i :: 0 <= i < |xs| && i < |ys| ==> |xs[i]| == |ys[i]|
    ensures |Join(xs, sep)| < |Join(ys, sep)| <==> |xs| < |ys|
    ensures |Join(xs, sep)| == |Join(ys, sep)| <==> |xs| == |ys|
    decreases |xs|
  {
    if |xs| > 1 && |ys| > 1 {
      JoinLengthOrder(xs[1..], ys[1..], sep);
    }
  }

  /** Lists whose pieces agree pairwise once folded give the same folded join. */
  lemma {:induction false} JoinUpper(xs: seq<string>, ys: seq<string>, sep: char)
    requires |xs| >= 1 && |xs| == |ys|
    requires forall i :: 0 <= i < |xs| ==> Upper(xs[i]) == Upper(ys[i])
    ensures Upper(Join(xs, sep)) == Upper(Join(ys, sep))
    decreases |xs|
  {
    if |xs| > 1 {
      JoinUpper(xs[1..], ys[1..], sep);
      UpperAppend(xs[0] + [sep], Join(xs[1..], sep));
      UpperAppend(ys[0] + [sep], Join(ys[1..], sep));
      UpperAppend(xs[0], [sep]);
      UpperAppend(ys[0], [sep]);
    }
  }
}
