/**
 * The composite sort keys of the cinema table: location segments joined by
 * '#', as the handlers build them with f-strings, and the split that undoes it.
 */
module SortKey {

  const Separator: char := '#'

  /** `"#".join(segments)`: the segments with one separator between neighbours. */
  function Join(segments: seq<string>): string
  {
    if |segments| == 0 then ""
    else if |segments| == 1 then segments[0]
    else segments[0] + [Separator] + Join(segments[1..])
  }

  /** `s.split("#")`: the maximal separator-free pieces of `s`, in order. */
  function Split(s: string): (r: seq<string>)
    ensures |r| >= 1
  {
    if s == [] then [""]
    else if s[0] == Separator then [""] + Split(s[1..])
    else
      var rest := Split(s[1..]);
      [[s[0]] + rest[0]] + rest[1..]
  }

  /** No segment contains the separator. */
  predicate Plain(segments: seq<string>)
  {
    forall i :: 0 <= i < |segments| ==> Separator !in segments[i]
  }

  /** Number of separators in `s`. */
  function Separators(s: string): nat
  {
    if s == [] then 0 else (if s[0] == Separator then 1 else 0) + Separators(s[1..])
  }

  lemma {:induction false} SeparatorsAppend(a: string, b: string)
    ensures Separators(a + b) == Separators(a) + Separators(b)
  {
    if a != [] {
      assert (a + b)[1..] == a[1..] + b;
      SeparatorsAppend(a[1..], b);
    } else {
      assert a + b == b;
    }
  }

  /** A key joined from n segments has at least n - 1 separators, so it is never empty when n > 1. */
  lemma {:induction false} JoinSeparators(segments: seq<string>)
    requires |segments| >= 1
    ensures Separators(Join(segments)) >= |segments| - 1
    ensures |segments| >= 2 ==> |Join(segments)| >= |segments| - 1
  {
    if |segments| >= 2 {
      JoinSeparators(segments[1..]);
      SeparatorsAppend(segments[0] + [Separator], Join(segments[1..]));
      SeparatorsAppend(segments[0], [Separator]);
      assert Separators([Separator]) == 1;
      SeparatorsBound(Join(segments[1..]));
    }
  }

  lemma {:induction false} SeparatorsBound(s: string)
    ensures Separators(s) <= |s|
  {
    if s != [] {
      SeparatorsBound(s[1..]);
    }
  }

  /** Splitting a separator-free `a` glued to `t` extends the first piece of `t`. */
  lemma {:induction false} SplitPlainPrefix(a: string, t: string)
    requires Separator !in a
    ensures Split(a + t) == [a + Split(t)[0]] + Split(t)[1..]
  {
    var st := Split(t);
    if a != [] {
      assert (a + t)[0] == a[0] && a[0] != Separator;
      assert (a + t)[1..] == a[1..] + t;
      SplitPlainPrefix(a[1..], t);
      var rest := Split(a[1..] + t);
      assert rest == [a[1..] + st[0]] + st[1..];
      assert Split(a + t) == [[a[0]] + rest[0]] + rest[1..];
      assert [a[0]] + (a[1..] + st[0]) == a + st[0];
    } else {
      assert a + t == t && a + st[0] == st[0];
      assert st == [st[0]] + st[1..];
    }
  }

  /** Round trip: splitting a key joined from separator-free segments gives the segments back. */
  lemma {:induction false} SplitJoin(segments: seq<string>)
    requires |segments| >= 1 && Plain(segments)
    ensures Split(Join(segments)) == segments
  {
    if |segments| == 1 {
      SplitPlainPrefix(segments[0], "");
      assert segments[0] + "" == segments[0];
    } else {
      var tail := Join(segments[1..]);
      SplitJoin(segments[1..]);
      assert segments[0] + [Separator] + tail == segments[0] + ([Separator] + tail);
      SplitPlainPrefix(segments[0], [Separator] + tail);
      assert ([Separator] + tail)[0] == Separator;
      assert ([Separator] + tail)[1..] == tail;
      assert Split([Separator] + tail) == [""] + segments[1..];
      assert segments[0] + "" == segments[0];
      assert segments == [segments[0]] + segments[1..];
    }
  }

  /** Keys joined from separator-free segments are equal only when the segments are. */
  lemma JoinInjective(xs: seq<string>, ys: seq<string>)
    requires |xs| >= 1 && |ys| >= 1 && Plain(xs) && Plain(ys)
    requires Join(xs) == Join(ys)
    ensures xs == ys
  {
    SplitJoin(xs);
    SplitJoin(ys);
  }
}
