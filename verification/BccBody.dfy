/**
 What stripping the Bcc field does to the body of a message, as a mail reader finds it:
 the lines from the first blank one on, whichever way lines end.
 */
module BccBody {
  import opened Strconv
  import opened Text
  import opened Bcc

  /** A message's body, with the blank line that starts it. */
  function BodyLines(lines: seq<string>): seq<string> {
    if lines == [] || Blank(lines[0]) then lines else BodyLines(lines[1..])
  }

  function FirstBlank(lines: seq<string>): (k: nat)
    ensures k <= |lines| && (k < |lines| ==> Blank(lines[k]))
    ensures forall i :: 0 <= i < k ==> !Blank(lines[i])
  {
    if lines == [] || Blank(lines[0]) then 0 else 1 + FirstBlank(lines[1..])
  }

  lemma {:induction false} BodyFrom(lines: seq<string>)
    ensures BodyLines(lines) == lines[FirstBlank(lines)..]
  {
    if lines != [] && !Blank(lines[0]) {
      BodyFrom(lines[1..]);
      assert lines[1..][FirstBlank(lines[1..])..] == lines[1 + FirstBlank(lines[1..])..];
    }
  }

  /** The end of the line the boundary cuts, which is also all of the blank line after it. */
  predicate IsEnd(e: string) {
    e == "" || e == "\r"
  }

  function AddLast(lines: seq<string>, e: string): (r: seq<string>)
    requires lines != []
    ensures |r| == |lines|
  {
    lines[..|lines| - 1] + [lines[|lines| - 1] + e]
  }

  lemma AddLastEqualIff(a: seq<string>, b: seq<string>, e: string)
    requires a != [] && b != []
    ensures AddLast(a, e) == AddLast(b, e) <==> a == b
  {
    if AddLast(a, e) == AddLast(b, e) {
      var n := |a| - 1;
      forall i | 0 <= i < n ensures a[i] == b[i] {
        assert AddLast(a, e)[i] == AddLast(b, e)[i];
      }
      assert a[n] + e == AddLast(a, e)[n] == AddLast(b, e)[n] == b[n] + e;
      assert a[n] == (a[n] + e)[..|a[n]|] == (b[n] + e)[..|b[n]|] == b[n];
    }
  }

  lemma BlankEnd(line: string, e: string)
    requires IsEnd(e)
    ensures Blank(line + e) <==> Blank(line)
  {
    if e == "" {
      assert line + e == line;
    } else {
      assert (line + e)[..|line|] == line;
    }
  }

  lemma AddNothing(lines: seq<string>)
    requires lines != []
    ensures AddLast(lines, "") == lines
  {
    assert lines[|lines| - 1] + "" == lines[|lines| - 1];
  }

  lemma SplitChar(h: string, c: char)
    requires c != '\n'
    ensures Split(h + [c], '\n') == AddLast(Split(h, '\n'), [c])
  {
    var s := h + [c];
    assert s[..|s| - 1] == h && s[|s| - 1] == c;
  }

  lemma SplitEnd(h: string, e: string)
    requires IsEnd(e)
    ensures Split(h + e, '\n') == AddLast(Split(h, '\n'), e)
  {
    if e == "" {
      assert h + e == h;
      AddNothing(Split(h, '\n'));
    } else {
      SplitChar(h, '\r');
    }
  }

  function Tail(e: string, rest: string): string {
    e + ['\n'] + e + ['\n'] + rest
  }

  lemma TailText(h: string, e: string, rest: string)
    ensures h + Tail(e, rest) == (h + e) + ['\n'] + (e + ['\n'] + rest)
  {
  }

  /** The lines of a header followed by the boundary and the rest. */
  lemma CutLines(h: string, e: string, rest: string)
    requires IsEnd(e)
    ensures Split(h + Tail(e, rest), '\n') == AddLast(Split(h, '\n'), e) + ([e] + Split(rest, '\n'))
  {
    TailText(h, e, rest);
    SplitTwo(h + e, '\n', e + ['\n'] + rest);
    SplitTwo(e, '\n', rest);
    SplitOne(e, '\n');
    SplitEnd(h, e);
  }

  lemma BoundaryTail(raw: string) returns (e: string, rest: string)
    requires Boundary(raw).Some?
    ensures IsEnd(e) && raw[Boundary(raw).value..] == Tail(e, rest)
  {
    var n := Boundary(raw).value;
    if Index(raw, CRLF_BLANK).Some? {
      e, rest := "\r", raw[n + 4..];
      assert raw[n..n + 4] == CRLF_BLANK == "\r" + ['\n'] + "\r" + ['\n'];
    } else {
      e, rest := "", raw[n + 2..];
      assert raw[n..n + 2] == LF_BLANK == "" + ['\n'] + "" + ['\n'];
    }
    assert raw[n..] == Tail(e, rest);
  }

  lemma {:induction false} BodyConcat(a: seq<string>, b: seq<string>)
    requires b != [] && Blank(b[0])
    ensures BodyLines(a + b) == BodyLines(a) + b
  {
    if a == [] {
      assert a + b == b;
    } else if !Blank(a[0]) {
      assert (a + b)[1..] == a[1..] + b;
      BodyConcat(a[1..], b);
    }
  }

  lemma {:induction false} BodyEnd(lines: seq<string>, e: string)
    requires lines != [] && IsEnd(e)
    ensures BodyLines(AddLast(lines, e)) == if BodyLines(lines) == [] then [] else AddLast(BodyLines(lines), e)
  {
    BlankEnd(lines[|lines| - 1], e);
    if |lines| == 1 {
      assert AddLast(lines, e)[1..] == [] && lines[1..] == [];
    } else if !Blank(lines[0]) {
      assert AddLast(lines, e)[1..] == AddLast(lines[1..], e);
      BodyEnd(lines[1..], e);
    }
  }

  // ---------- what is kept of a part ----------

  ghost predicate NoneBcc(lines: seq<string>, a: nat, b: nat)
    requires b <= |lines|
  {
    forall j :: a <= j < b ==> !InBccField(lines, j)
  }

  /** For each line, whether it is in a Bcc field. */
  ghost function Dropped(lines: seq<string>): (drop: seq<bool>)
    ensures |drop| == |lines|
    ensures forall k :: 0 <= k < |lines| ==> (drop[k] <==> InBccField(lines, k))
  {
    seq(|lines|, k requires 0 <= k < |lines| => InBccField(lines, k))
  }

  /** What is left of the lines from a to b when some are dropped. */
  ghost function Part(lines: seq<string>, drop: seq<bool>, a: nat, b: nat): (r: seq<string>)
    requires a <= b <= |lines| == |drop|
    ensures |r| <= b - a
    decreases b
  {
    if a == b then [] else Part(lines, drop, a, b - 1) + if drop[b - 1] then [] else [lines[b - 1]]
  }

  lemma {:induction false} KeptParts(lines: seq<string>, a: nat, b: nat)
    requires a <= b <= |lines|
    ensures Kept(lines, b) == Kept(lines, a) + Part(lines, Dropped(lines), a, b)
    decreases b
  {
    var drop := Dropped(lines);
    if a < b {
      KeptParts(lines, a, b - 1);
      var last := if drop[b - 1] then [] else [lines[b - 1]];
      assert Kept(lines, b) == Kept(lines, b - 1) + last;
      assert (Kept(lines, a) + Part(lines, drop, a, b - 1)) + last == Kept(lines, a) + Part(lines, drop, a, b);
    }
  }

  lemma {:induction false} PartWholeIff(lines: seq<string>, drop: seq<bool>, a: nat, b: nat)
    requires a <= b <= |lines| == |drop|
    ensures Part(lines, drop, a, b) == lines[a..b] <==> forall j :: a <= j < b ==> !drop[j]
    decreases b
  {
    if a < b {
      PartWholeIff(lines, drop, a, b - 1);
      assert lines[a..b] == lines[a..b - 1] + [lines[b - 1]];
      SameBefore(Part(lines, drop, a, b - 1), lines[a..b - 1], [lines[b - 1]]);
    }
  }

  /** The first line is there, unless it is dropped. */
  lemma {:induction false} PartFirst(lines: seq<string>, drop: seq<bool>, a: nat, b: nat)
    requires a < b <= |lines| == |drop| && !drop[a]
    ensures Part(lines, drop, a, b) != [] && Part(lines, drop, a, b)[0] == lines[a]
    decreases b
  {
    if a + 1 < b {
      PartFirst(lines, drop, a, b - 1);
    } else {
      assert Part(lines, drop, a, b - 1) == [];
    }
  }

  lemma SameBefore(a: seq<string>, b: seq<string>, s: seq<string>)
    ensures a + s == b + s <==> a == b
  {
    if a + s == b + s {
      assert |a| == |b|;
      assert a == (a + s)[..|a|] == (b + s)[..|b|] == b;
    }
  }

  lemma BlankKept(lines: seq<string>, k: nat)
    requires k < |lines| && Blank(lines[k])
    ensures !InBccField(lines, k)
  {
    FieldStep(lines, k);
  }

  lemma {:induction false} KeptNotBlank(lines: seq<string>, n: nat)
    requires n <= |lines| && forall i :: 0 <= i < n ==> !Blank(lines[i])
    ensures forall i :: 0 <= i < |Kept(lines, n)| ==> !Blank(Kept(lines, n)[i])
  {
    if n > 0 {
      KeptNotBlank(lines, n - 1);
    }
  }

  lemma {:induction false} BodySkips(a: seq<string>, b: seq<string>)
    requires forall i :: 0 <= i < |a| ==> !Blank(a[i])
    ensures BodyLines(a + b) == BodyLines(b)
  {
    if a == [] {
      assert a + b == b;
    } else {
      assert (a + b)[1..] == a[1..] + b;
      BodySkips(a[1..], b);
    }
  }

  lemma DroppedIff(lines: seq<string>, k: nat)
    requires k <= |lines|
    ensures NoneBcc(lines, k, |lines|) <==> forall j :: k <= j < |lines| ==> !Dropped(lines)[j]
  {
    var drop := Dropped(lines);
    if NoneBcc(lines, k, |lines|) {
      forall j | k <= j < |lines| ensures !drop[j] {
        assert !InBccField(lines, j);
      }
    }
  }

  /** What is kept before the body, and of it. */
  lemma KeptSplits(lines: seq<string>) returns (head: seq<string>, part: seq<string>)
    ensures Kept(lines, |lines|) == head + part
    ensures BodyLines(head + part) == part
    ensures part == [] <==> BodyLines(lines) == []
    ensures part == BodyLines(lines) <==> NoneBcc(lines, FirstBlank(lines), |lines|)
  {
    var k := FirstBlank(lines);
    BodyFrom(lines);
    var drop := Dropped(lines);
    head, part := Kept(lines, k), Part(lines, drop, k, |lines|);
    KeptParts(lines, k, |lines|);
    KeptNotBlank(lines, k);
    if k < |lines| {
      BlankKept(lines, k);
    }
    PartBody(lines, drop, k);
    BodySkips(head, part);
    DroppedIff(lines, k);
  }

  /** Of the body all is kept exactly when none of its lines is in a Bcc field, and its first line always is. */
  lemma KeptBody(lines: seq<string>)
    ensures var body := BodyLines(Kept(lines, |lines|));
            && (body == [] <==> BodyLines(lines) == [])
            && (body == BodyLines(lines) <==> NoneBcc(lines, FirstBlank(lines), |lines|))
  {
    var _, _ := KeptSplits(lines);
  }

  lemma PartBody(lines: seq<string>, drop: seq<bool>, k: nat)
    requires k <= |lines| == |drop| && (k < |lines| ==> Blank(lines[k]) && !drop[k])
    ensures var part := Part(lines, drop, k, |lines|);
            && BodyLines(part) == part
            && (part == [] <==> lines[k..] == [])
            && (part == lines[k..] <==> forall j :: k <= j < |lines| ==> !drop[j])
  {
    PartWholeIff(lines, drop, k, |lines|);
    assert lines[k..|lines|] == lines[k..];
    if k < |lines| {
      PartFirst(lines, drop, k, |lines|);
    }
    StartsBlank(Part(lines, drop, k, |lines|));
  }

  lemma StartsBlank(lines: seq<string>)
    requires lines == [] || Blank(lines[0])
    ensures BodyLines(lines) == lines
  {
  }

  // ---------- the theorem ----------

  /** The kept header followed by the boundary, when something is kept. */
  lemma StrippedLines(kept: seq<string>, e: string, rest: string)
    requires IsEnd(e) && Free(kept, '\n') && kept != []
    ensures BodyLines(Split(Join(kept, '\n') + Tail(e, rest), '\n')) ==
            (if BodyLines(kept) == [] then [] else AddLast(BodyLines(kept), e)) + ([e] + Split(rest, '\n'))
  {
    SplitJoin(kept, '\n');
    CutLines(Join(kept, '\n'), e, rest);
    BlankEnd("", e);
    assert "" + e == e;
    BodyConcat(AddLast(kept, e), [e] + Split(rest, '\n'));
    BodyEnd(kept, e);
  }

  lemma NothingKeptLines(e: string, rest: string)
    requires IsEnd(e)
    ensures BodyLines(Split(Join([], '\n') + Tail(e, rest), '\n')) == [e] + ([e] + Split(rest, '\n'))
  {
    CutLines("", e, rest);
    BlankEnd("", e);
    assert "" + e == e;
    assert AddLast([""], e) == [e];
  }

  /**
   What the stripping leaves of the body: all of it exactly when no line from the reader's
   first blank line to the boundary is in a Bcc field and, where that blank line is the
   boundary's own, something of the header is kept.
   */
  lemma BodyKeptIff(raw: string)
    requires Boundary(raw).Some?
    ensures var lines := Split(raw[..Boundary(raw).value], '\n');
            var k := FirstBlank(lines);
            BodyLines(Split(Stripped(raw), '\n')) == BodyLines(Split(raw, '\n')) <==>
            NoneBcc(lines, k, |lines|) && (k < |lines| || KeepsSome(lines))
  {
    var idx := Boundary(raw).value;
    var lines := Split(raw[..idx], '\n');
    var e, rest := BoundaryTail(raw);
    assert raw == raw[..idx] + raw[idx..];
    JoinSplit(raw[..idx], '\n');
    StrippedLines(lines, e, rest);
    KeptClean(lines, |lines|);
    KeptNothingIff(lines, |lines|);
    KeptBody(lines);
    BodyFrom(lines);
    BodiesEqualIff(lines, Kept(lines, |lines|), e, rest);
  }

  lemma BodiesEqualIff(lines: seq<string>, kept: seq<string>, e: string, rest: string)
    requires IsEnd(e) && lines != [] && Free(kept, '\n')
    requires BodyLines(kept) == [] <==> BodyLines(lines) == []
    ensures BodyLines(Split(Join(kept, '\n') + Tail(e, rest), '\n')) ==
            (if BodyLines(lines) == [] then [] else AddLast(BodyLines(lines), e)) + ([e] + Split(rest, '\n')) <==>
            BodyLines(kept) == BodyLines(lines) && (BodyLines(lines) != [] || kept != [])
  {
    var s := [e] + Split(rest, '\n');
    if kept == [] {
      NothingKeptLines(e, rest);
    } else {
      StrippedLines(kept, e, rest);
      if BodyLines(lines) != [] {
        AddLastEqualIff(BodyLines(kept), BodyLines(lines), e);
        SameBefore(AddLast(BodyLines(kept), e), AddLast(BodyLines(lines), e), s);
      }
    }
  }

  // ---------- messages whose body is touched ----------

  const QUOTED := "A:b\n\nBcc:x\r\n\r\n"

  lemma QuotedBoundary()
    ensures Index(QUOTED, CRLF_BLANK) == Some(10)
  {
    assert QUOTED[10..14] == CRLF_BLANK;
    assert OccursAt(QUOTED, CRLF_BLANK, 10);
    var k := Index(QUOTED, CRLF_BLANK).value;
    OccursChars(QUOTED, CRLF_BLANK, k, 0);
    OccursChars(QUOTED, CRLF_BLANK, k, 2);
    assert k == 10 || k == 12;
  }

  lemma ThirdDropped(a: string, b: string, c: string)
    requires Free([a, b, c], '\n') && !IsBcc(a) && !IsBcc(b) && IsBcc(c)
    ensures StrippedHeader(Join([a, b, c], '\n')) == Join([a, b], '\n')
  {
    var lines := [a, b, c];
    SplitJoin(lines, '\n');
    FieldStep(lines, 0);
    FieldStep(lines, 1);
    FieldStep(lines, 2);
    assert Kept(lines, 1) == [a] && Kept(lines, 2) == [a, b] && Kept(lines, 3) == [a, b];
  }

  lemma QuotedLines()
    ensures QUOTED[..10] == Join(["A:b", "", "Bcc:x"], '\n') && Join(["A:b", ""], '\n') == "A:b\n"
  {
    var a, b, c := "A:b", "", "Bcc:x";
    assert [a, b, c][..2] == [a, b] && [a, b][..1] == [a];
    assert Join([a, b], '\n') == "A:b\n";
  }

  lemma QuotedNames()
    ensures !IsBcc("A:b") && !IsBcc("") && IsBcc("Bcc:x")
  {
    BccStart("A:b");
    BccStart("");
    BccStart("Bcc:x");
  }

  /** A line of the body goes when a CRLF blank line follows it. */
  lemma QuotedLineGoes()
    ensures Stripped(QUOTED) == "A:b\n\r\n\r\n"
  {
    QuotedBoundary();
    StrippedAt(QUOTED, 10);
    QuotedLines();
    QuotedNames();
    ThirdDropped("A:b", "", "Bcc:x");
    assert QUOTED[10..] == CRLF_BLANK;
  }

  const ONLY_BCC := "Bcc:x\n\nhi"

  lemma OnlyBoundary()
    ensures Boundary(ONLY_BCC) == Some(5)
  {
    if Index(ONLY_BCC, CRLF_BLANK).Some? {
      OccursChars(ONLY_BCC, CRLF_BLANK, Index(ONLY_BCC, CRLF_BLANK).value, 0);
      assert false;
    }
    assert ONLY_BCC[5..7] == LF_BLANK;
    assert OccursAt(ONLY_BCC, LF_BLANK, 5);
    var k := Index(ONLY_BCC, LF_BLANK).value;
    OccursChars(ONLY_BCC, LF_BLANK, k, 0);
    assert k == 5 || k == 6;
  }

  lemma OnlyDropped(line: string)
    requires '\n' !in line && IsBcc(line)
    ensures StrippedHeader(line) == ""
  {
    SplitOne(line, '\n');
    FieldStep([line], 0);
    assert Kept([line], 1) == [];
  }

  /** A header of nothing but Bcc leaves an empty line behind, which the body then starts with. */
  lemma EmptyLineLeft()
    ensures Stripped(ONLY_BCC) == "\n\nhi"
  {
    OnlyBoundary();
    var line := "Bcc:x";
    assert ONLY_BCC[..5] == line && ONLY_BCC[5..] == "\n\nhi";
    BccStart(line);
    OnlyDropped(line);
    assert "" + "\n\nhi" == "\n\nhi";
  }
}
