/** The string operations of Python that the analysis engine relies on:
    `str.split` with a one-character separator, `str.join` and `str.lower`. */
module Strings {

  /** `sep.join(parts)`: the parts in order with `sep` between neighbours. */
  function Join(parts: seq<string>, sep: string): string
  {
    if |parts| == 0 then []
    else if |parts| == 1 then parts[0]
    else parts[0] + sep + Join(parts[1..], sep)
  }

  /** `s.split(sep)`: the pieces between occurrences of `sep`, in order.
      There is always at least one piece (`"".split('-') == ['']`). */
  function Split(s: string, sep: char): (parts: seq<string>)
    ensures |parts| >= 1
    decreases |s|
  {
    if s == [] then [[]]
    else
      var rest := Split(s[1..], sep);
      if s[0] == sep then [[]] + rest
      else [[s[0]] + rest[0]] + rest[1..]
  }

  /** No piece contains the separator, and joining the pieces with it gives
      `s` back. */
  lemma {:induction false} SplitPieces(s: string, sep: char)
    ensures forall k :: 0 <= k < |Split(s, sep)| ==> sep !in Split(s, sep)[k]
    ensures Join(Split(s, sep), [sep]) == s
    decreases |s|
  {
    if s != [] {
      var rest := Split(s[1..], sep);
      SplitPieces(s[1..], sep);
      assert [s[0]] + s[1..] == s;
      if s[0] != sep {
        var parts := [[s[0]] + rest[0]] + rest[1..];
        assert forall k :: 1 <= k < |rest| ==> parts[k] == rest[k];
        if |rest| > 1 {
          assert Join(rest, [sep]) == rest[0] + [sep] + Join(rest[1..], [sep]);
          assert parts[1..] == rest[1..];
        }
      }
    }
  }

  /** Splitting the join of separator-free pieces gives the pieces back:
      with `Split`'s own contract, `Split` and `Join` are inverse bijections. */
  lemma {:induction false} SplitJoin(parts: seq<string>, sep: char)
    requires |parts| >= 1
    requires forall k :: 0 <= k < |parts| ==> sep !in parts[k]
    ensures Split(Join(parts, [sep]), sep) == parts
    decreases |parts|, |parts[0]|
  {
    var s := Join(parts, [sep]);
    if |parts| == 1 {
      if parts[0] != [] {
        var p := parts[0];
        assert s == p;
        assert sep !in p[1..] by { assert forall c :: c in p[1..] ==> c in p; }
        SplitJoin([p[1..]], sep);
        assert Join([p[1..]], [sep]) == p[1..];
        assert [p[0]] + p[1..] == p;
      }
    } else if parts[0] == [] {
      assert s == [sep] + Join(parts[1..], [sep]);
      assert s[1..] == Join(parts[1..], [sep]);
      SplitJoin(parts[1..], sep);
      assert parts == [[]] + parts[1..];
    } else {
      var p := parts[0];
      var tail := [p[1..]] + parts[1..];
      assert tail[1..] == parts[1..];
      assert Join(tail, [sep]) == p[1..] + [sep] + Join(parts[1..], [sep]);
      assert s == [p[0]] + Join(tail, [sep]);
      assert s[1..] == Join(tail, [sep]);
      SplitJoin(tail, sep);
      assert [p[0]] + tail[0] == p;
      assert parts == [[p[0]] + tail[0]] + tail[1..];
    }
  }

  /** Python's `str.lower` on the ASCII letters. */
  function LowerChar(c: char): char
  {
    if 'A' <= c <= 'Z' then (c as int + 32) as char else c
  }

  function Lower(s: string): (r: string)
    ensures |r| == |s|
  {
    if s == [] then [] else [LowerChar(s[0])] + Lower(s[1..])
  }

  /** Lower-casing works character by character. */
  lemma {:induction false} LowerAt(s: string)
    ensures forall k :: 0 <= k < |s| ==> Lower(s)[k] == LowerChar(s[k])
  {
    if s != [] {
      LowerAt(s[1..]);
    }
  }
}
