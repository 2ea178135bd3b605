/** Cutting text at a separator character and putting it together again. */
module Text {
  import opened Strconv

  /** The pieces of a text: what stands between its separators. */
  function Split(s: string, sep: char): (r: seq<string>)
    ensures |r| > 0 && Free(r, sep)
  {
    if s == "" then [""]
    else
      var rest, c := Split(s[..|s| - 1], sep), s[|s| - 1];
      if c == sep then rest + [""] else rest[..|rest| - 1] + [rest[|rest| - 1] + [c]]
  }

  function Join(parts: seq<string>, sep: char): string {
    if parts == [] then ""
    else if |parts| == 1 then parts[0]
    else Join(parts[..|parts| - 1], sep) + [sep] + parts[|parts| - 1]
  }

  predicate Free(parts: seq<string>, sep: char) {
    forall i :: 0 <= i < |parts| ==> sep !in parts[i]
  }

  /** The text before and after the first separator. */
  function Cut(s: string, sep: char): (r: Option<(string, string)>)
    ensures r.Some? ==> sep !in r.value.0 && s == r.value.0 + [sep] + r.value.1
    ensures r.None? <==> sep !in s
  {
    if s == "" then None
    else if s[0] == sep then Some(("", s[1..]))
    else
      match Cut(s[1..], sep)
      case None => None
      case Some((a, b)) => Some(([s[0]] + a, b))
  }

  lemma {:induction false} CutFirst(a: string, sep: char, b: string)
    requires sep !in a
    ensures Cut(a + [sep] + b, sep) == Some((a, b))
  {
    var s := a + [sep] + b;
    if a == "" {
      assert s[1..] == b;
    } else {
      assert a[0] in a;
      assert s[1..] == a[1..] + [sep] + b;
      CutFirst(a[1..], sep, b);
      assert [a[0]] + a[1..] == a;
    }
  }

  lemma {:induction false} JoinSplit(s: string, sep: char)
    ensures Join(Split(s, sep), sep) == s
  {
    if s != "" {
      var init, c := s[..|s| - 1], s[|s| - 1];
      JoinSplit(init, sep);
      var rest := Split(init, sep);
      if c == sep {
        assert (rest + [""])[..|rest|] == rest;
      } else {
        JoinLast(rest, [c], sep);
      }
    }
  }

  /** Text added to the last piece is added to the whole. */
  lemma JoinLast(parts: seq<string>, more: string, sep: char)
    requires parts != []
    ensures Join(parts[..|parts| - 1] + [parts[|parts| - 1] + more], sep) == Join(parts, sep) + more
  {
    var grown := parts[..|parts| - 1] + [parts[|parts| - 1] + more];
    assert grown[..|grown| - 1] == parts[..|parts| - 1];
  }

  lemma {:induction false} SplitAppend(s: string, sep: char, part: string)
    requires sep !in part
    ensures Split(s + [sep] + part, sep) == Split(s, sep) + [part]
  {
    if part == "" {
      assert (s + [sep])[..|s|] == s && s + [sep] + "" == s + [sep];
    } else {
      var init, c := part[..|part| - 1], part[|part| - 1];
      var t := s + [sep] + part;
      assert t[..|t| - 1] == s + [sep] + init;
      assert c in part;
      SplitAppend(s, sep, init);
      assert init + [c] == part;
    }
  }

  lemma {:induction false} SplitOne(part: string, sep: char)
    requires sep !in part
    ensures Split(part, sep) == [part]
  {
    if part != "" {
      assert part[|part| - 1] in part;
      SplitOne(part[..|part| - 1], sep);
      assert part == part[..|part| - 1] + [part[|part| - 1]];
    }
  }

  lemma {:induction false} SplitJoin(parts: seq<string>, sep: char)
    requires parts != [] && Free(parts, sep)
    ensures Split(Join(parts, sep), sep) == parts
  {
    if |parts| == 1 {
      SplitOne(parts[0], sep);
    } else {
      var init, last := parts[..|parts| - 1], parts[|parts| - 1];
      assert Free(init, sep);
      SplitJoin(init, sep);
      SplitAppend(Join(init, sep), sep, last);
      assert parts == init + [last];
    }
  }

  lemma {:induction false} JoinConcat(a: seq<string>, b: seq<string>, sep: char)
    requires a != [] && b != []
    ensures Join(a + b, sep) == Join(a, sep) + [sep] + Join(b, sep)
  {
    var init := b[..|b| - 1];
    assert (a + b)[..|a + b| - 1] == a + init;
    if init == [] {
      assert a + init == a;
    } else {
      JoinConcat(a, init, sep);
    }
  }

  /** Splitting at a separator splits what is on either side. */
  lemma SplitTwo(a: string, sep: char, b: string)
    ensures Split(a + [sep] + b, sep) == Split(a, sep) + Split(b, sep)
  {
    var parts := Split(a, sep) + Split(b, sep);
    JoinConcat(Split(a, sep), Split(b, sep), sep);
    JoinSplit(a, sep);
    JoinSplit(b, sep);
    SplitJoin(parts, sep);
  }
}
