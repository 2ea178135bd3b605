/**
 Stripping the blind-copy header from an outgoing message (RFC 5322 sections 2.2.3
 and 3.6.3): the message is cut at its first CRLF blank line, or else its first LF one,
 and of what comes before, the Bcc field goes with its folded continuations.
 */
module Bcc {
  import opened Strconv
  import opened Text

  // ---------- bytes ----------

  predicate OccursAt(s: string, pat: string, i: nat) {
    i + |pat| <= |s| && s[i..i + |pat|] == pat
  }

  /** bytes.Index: the first occurrence. */
  function Index(s: string, pat: string): (k: Option<nat>)
    ensures k.Some? ==> OccursAt(s, pat, k.value) && forall i :: 0 <= i < k.value ==> !OccursAt(s, pat, i)
    ensures k.None? ==> forall i :: 0 <= i <= |s| ==> !OccursAt(s, pat, i)
  {
    IndexFrom(s, pat, 0)
  }

  function IndexFrom(s: string, pat: string, from: nat): (k: Option<nat>)
    requires from <= |s|
    requires forall i :: 0 <= i < from ==> !OccursAt(s, pat, i)
    ensures k.Some? ==> OccursAt(s, pat, k.value) && forall i :: 0 <= i < k.value ==> !OccursAt(s, pat, i)
    ensures k.None? ==> forall i :: 0 <= i <= |s| ==> !OccursAt(s, pat, i)
    decreases |s| - from
  {
    if OccursAt(s, pat, from) then Some(from)
    else if from == |s| then None
    else IndexFrom(s, pat, from + 1)
  }

  function TrimCR(line: string): string {
    if line != "" && line[|line| - 1] == '\r' then TrimCR(line[..|line| - 1]) else line
  }

  function Lower(c: char): char {
    if 'A' <= c <= 'Z' then c + 32 as char else c
  }

  // ---------- the header fields ----------

  const CRLF_BLANK := "\r\n\r\n"
  const LF_BLANK := "\n\n"

  /** Where the header ends: the first CRLF blank line, or else the first LF one. */
  function Boundary(raw: string): Option<nat> {
    var crlf := Index(raw, CRLF_BLANK);
    if crlf.Some? then crlf else Index(raw, LF_BLANK)
  }

  predicate StartsBcc(s: string) {
    |s| >= 4 && Lower(s[0]) == 'b' && Lower(s[1]) == 'c' && Lower(s[2]) == 'c' && s[3] == ':'
  }

  predicate IsBcc(line: string) {
    StartsBcc(TrimCR(line))
  }

  predicate Folded(line: string) {
    var t := TrimCR(line);
    t != "" && (t[0] == ' ' || t[0] == '\t')
  }

  /** Line k is a Bcc line or one of its folded continuations. */
  ghost predicate InBccField(lines: seq<string>, k: nat)
    requires k < |lines|
  {
    exists j :: 0 <= j <= k && IsBcc(lines[j]) && forall m :: j < m <= k ==> Folded(lines[m])
  }

  /** The first n lines without any Bcc field. */
  ghost function Kept(lines: seq<string>, n: nat): seq<string>
    requires n <= |lines|
  {
    if n == 0 then []
    else Kept(lines, n - 1) + if InBccField(lines, n - 1) then [] else [lines[n - 1]]
  }

  ghost function StrippedHeader(header: string): string {
    var lines := Split(header, '\n');
    Join(Kept(lines, |lines|), '\n')
  }

  ghost function Stripped(raw: string): string {
    match Boundary(raw)
    case None => raw
    case Some(idx) => StrippedHeader(raw[..idx]) + raw[idx..]
  }

  lemma FieldStep(lines: seq<string>, k: nat)
    requires k < |lines|
    ensures InBccField(lines, k) <==> IsBcc(lines[k]) || (k > 0 && Folded(lines[k]) && InBccField(lines, k - 1))
  {
    if j :| 0 <= j <= k && IsBcc(lines[j]) && forall m :: j < m <= k ==> Folded(lines[m]) {
      if j < k {
        assert InBccField(lines, k - 1);
      }
    }
    if k > 0 && Folded(lines[k]) && InBccField(lines, k - 1) {
      var j :| 0 <= j <= k - 1 && IsBcc(lines[j]) && forall m :: j < m <= k - 1 ==> Folded(lines[m]);
      assert forall m :: j < m <= k ==> Folded(lines[m]);
    }
  }

  /**
   The same by the letters: a line is in a Bcc field exactly when it starts with "bcc:" in
   any case, or starts with a blank or a tab and the line before it is in one.
   */
  lemma FieldLetters(lines: seq<string>, k: nat)
    requires k < |lines|
    ensures var line := lines[k];
            InBccField(lines, k) <==>
            || (|line| >= 4 && line[0] in "bB" && line[1] in "cC" && line[2] in "cC" && line[3] == ':')
            || (|line| >= 1 && line[0] in " \t" && k > 0 && InBccField(lines, k - 1))
  {
    FieldStep(lines, k);
    BccStart(lines[k]);
    TrimPrefix(lines[k]);
  }

  /** stripBcc: one pass over the lines with a skipping flag. */
  method StripBcc(raw: string) returns (r: string)
    ensures r == Stripped(raw)
  {
    var boundary := Boundary(raw);
    if boundary.None? {
      return raw;
    }
    var idx := boundary.value;
    var lines := Split(raw[..idx], '\n');
    var kept: seq<string> := [];
    var skipping := false;
    for i := 0 to |lines|
      invariant kept == Kept(lines, i)
      invariant skipping == (i > 0 && InBccField(lines, i - 1))
    {
      FieldStep(lines, i);
      var line := lines[i];
      if skipping && Folded(line) {
        BccNotFolded(line);
      } else if IsBcc(line) {
        skipping := true;
      } else {
        skipping := false;
        kept := kept + [line];
      }
    }
    r := Join(kept, '\n') + raw[idx..];
  }

  // ---------- lines ----------

  lemma {:induction false} TrimPrefix(line: string)
    ensures TrimCR(line) <= line
    ensures forall i :: |TrimCR(line)| <= i < |line| ==> line[i] == '\r'
  {
    if line != "" && line[|line| - 1] == '\r' {
      TrimPrefix(line[..|line| - 1]);
    }
  }

  /** Trimming carriage returns cannot hide or reveal a Bcc line. */
  lemma BccStart(line: string)
    ensures IsBcc(line) <==> StartsBcc(line)
  {
    TrimPrefix(line);
  }

  lemma BccNotFolded(line: string)
    requires Folded(line)
    ensures !IsBcc(line)
  {
  }

  ghost predicate Begins(a: seq<string>, b: seq<string>) {
    |a| <= |b| && forall i :: 0 <= i < |a| ==> a[i] <= b[i]
  }

  lemma {:induction false} SplitGrows(s: string)
    requires s != ""
    ensures Begins(Split(s[..|s| - 1], '\n'), Split(s, '\n'))
  {
    var rest, c := Split(s[..|s| - 1], '\n'), s[|s| - 1];
    var last := rest[|rest| - 1];
    assert last <= last + [c];
    if c == '\n' {
      assert Split(s, '\n') == rest + [""];
    } else {
      assert Split(s, '\n') == rest[..|rest| - 1] + [last + [c]];
    }
  }

  /** Each line of a text's beginning begins the corresponding line of the text. */
  lemma {:induction false} SplitPrefix(s: string, n: nat)
    requires n <= |s|
    ensures Begins(Split(s[..n], '\n'), Split(s, '\n'))
  {
    if n == |s| {
      assert s[..n] == s;
    } else {
      var init := s[..|s| - 1];
      SplitPrefix(init, n);
      assert init[..n] == s[..n];
      SplitGrows(s);
    }
  }

  /** Lines of which none is a Bcc line. */
  ghost predicate Clean(lines: seq<string>) {
    Free(lines, '\n') && forall i :: 0 <= i < |lines| ==> !IsBcc(lines[i])
  }

  lemma {:induction false} KeptClean(lines: seq<string>, n: nat)
    requires n <= |lines| && Free(lines, '\n')
    ensures |Kept(lines, n)| <= n && Clean(Kept(lines, n))
  {
    if n > 0 {
      KeptClean(lines, n - 1);
      FieldStep(lines, n - 1);
    }
  }

  lemma {:induction false} KeptAll(lines: seq<string>, n: nat)
    requires n <= |lines| && forall i :: 0 <= i < |lines| ==> !IsBcc(lines[i])
    ensures Kept(lines, n) == lines[..n]
  {
    if n > 0 {
      KeptAll(lines, n - 1);
      assert lines[..n] == lines[..n - 1] + [lines[n - 1]];
    }
  }

  // ---------- the theorems ----------

  lemma OccursInTail(s: string, pat: string, n: nat, i: nat)
    requires n <= |s| && OccursAt(s[n..], pat, i)
    ensures OccursAt(s, pat, n + i)
  {
    assert s[n..][i..i + |pat|] == s[n + i..n + i + |pat|];
  }

  /** Removing lines may create an earlier blank line, never a later header. */
  lemma BoundaryWithin(raw: string, idx: nat, head: string)
    requires Boundary(raw) == Some(idx)
    ensures var b := Boundary(head + raw[idx..]); b.Some? && b.value <= |head|
  {
    var body := raw[idx..];
    var out := head + body;
    var pat := if Index(raw, CRLF_BLANK).Some? then CRLF_BLANK else LF_BLANK;
    assert OccursAt(raw, pat, idx);
    assert out[|head|..|head| + |pat|] == pat;
    assert OccursAt(out, pat, |head|);
    var crlf := Index(out, CRLF_BLANK);
    if crlf.Some? && crlf.value > |head| {
      OccursInTail(raw, CRLF_BLANK, idx, crlf.value - |head|);
    }
  }

  /** The lines of the beginning of a clean header are clean. */
  lemma CleanHead(kept: seq<string>, n: nat)
    requires Clean(kept) && n <= |Join(kept, '\n')|
    ensures Clean(Split(Join(kept, '\n')[..n], '\n'))
  {
    var head := Join(kept, '\n');
    var lines := Split(head[..n], '\n');
    SplitPrefix(head, n);
    if kept != [] {
      SplitJoin(kept, '\n');
    }
    forall k | 0 <= k < |lines| ensures !IsBcc(lines[k]) {
      BccStart(lines[k]);
      BccStart(Split(head, '\n')[k]);
    }
  }

  /** The header of the result, up to its own first blank line, holds no Bcc line. */
  lemma NoBccLeft(raw: string)
    requires Boundary(raw).Some?
    ensures Boundary(Stripped(raw)).Some?
    ensures var out := Stripped(raw); Clean(Split(out[..Boundary(out).value], '\n'))
  {
    var idx := Boundary(raw).value;
    var lines := Split(raw[..idx], '\n');
    var kept := Kept(lines, |lines|);
    var head, out := Join(kept, '\n'), Stripped(raw);
    KeptClean(lines, |lines|);
    BoundaryWithin(raw, idx, head);
    var n := Boundary(out).value;
    assert out[..n] == head[..n];
    CleanHead(kept, n);
  }

  /** A clean header passes through unchanged. */
  lemma CleanUnchanged(raw: string)
    requires Boundary(raw).Some? && Clean(Split(raw[..Boundary(raw).value], '\n'))
    ensures Stripped(raw) == raw
  {
    var n := Boundary(raw).value;
    var head := raw[..n];
    CleanJoined(head);
    assert StrippedHeader(head) + raw[n..] == raw;
  }

  lemma CleanJoined(header: string)
    requires Clean(Split(header, '\n'))
    ensures StrippedHeader(header) == header
  {
    var lines := Split(header, '\n');
    KeptAll(lines, |lines|);
    assert lines[..|lines|] == lines;
    JoinSplit(header, '\n');
  }

  /** Stripping twice is stripping once. */
  lemma Idempotent(raw: string)
    ensures Stripped(Stripped(raw)) == Stripped(raw)
  {
    if Boundary(raw).Some? {
      NoBccLeft(raw);
      CleanUnchanged(Stripped(raw));
    }
  }

  function TotalLength(lines: seq<string>): nat {
    if lines == [] then 0 else TotalLength(lines[..|lines| - 1]) + |lines[|lines| - 1]|
  }

  lemma {:induction false} JoinLength(lines: seq<string>)
    ensures |Join(lines, '\n')| == TotalLength(lines) + if lines == [] then 0 else |lines| - 1
  {
    if |lines| > 1 {
      JoinLength(lines[..|lines| - 1]);
    } else if |lines| == 1 {
      assert lines[..0] == [];
    }
  }

  ghost predicate HasBcc(lines: seq<string>, n: nat)
    requires n <= |lines|
  {
    n > 0 && (HasBcc(lines, n - 1) || IsBcc(lines[n - 1]))
  }

  lemma {:induction false} NoBccIsClean(lines: seq<string>, n: nat)
    requires n <= |lines| && !HasBcc(lines, n)
    ensures forall i :: 0 <= i < n ==> !IsBcc(lines[i])
  {
    if n > 0 {
      NoBccIsClean(lines, n - 1);
    }
  }

  /** What the n-th line adds to the kept length. */
  lemma KeptStep(lines: seq<string>, n: nat)
    requires 0 < n <= |lines|
    ensures TotalLength(lines[..n]) == TotalLength(lines[..n - 1]) + |lines[n - 1]|
    ensures TotalLength(Kept(lines, n)) == TotalLength(Kept(lines, n - 1)) + KeptLength(lines, n - 1)
  {
    var line, kept := lines[n - 1], Kept(lines, n - 1);
    assert lines[..n] == lines[..n - 1] + [line];
    assert kept + [] == kept;
  }

  ghost function KeptLength(lines: seq<string>, k: nat): (len: nat)
    requires k < |lines|
    ensures len <= |lines[k]|
    ensures IsBcc(lines[k]) ==> len < |lines[k]|
  {
    BccStart(lines[k]);
    FieldStep(lines, k);
    if InBccField(lines, k) then 0 else |lines[k]|
  }

  lemma {:induction false} KeptShorter(lines: seq<string>, n: nat)
    requires n <= |lines|
    ensures TotalLength(Kept(lines, n)) <= TotalLength(lines[..n])
    ensures HasBcc(lines, n) ==> TotalLength(Kept(lines, n)) < TotalLength(lines[..n])
  {
    if n > 0 {
      KeptShorter(lines, n - 1);
      KeptStep(lines, n);
    }
  }

  /** A message is left alone exactly when its header holds no Bcc line. */
  lemma UnchangedIff(raw: string)
    ensures Stripped(raw) == raw <==> Boundary(raw).None? || Clean(Split(raw[..Boundary(raw).value], '\n'))
  {
    if Boundary(raw).Some? {
      var idx := Boundary(raw).value;
      var lines := Split(raw[..idx], '\n');
      if Clean(lines) {
        CleanUnchanged(raw);
      } else {
        var kept := Kept(lines, |lines|);
        JoinSplit(raw[..idx], '\n');
        assert lines[..|lines|] == lines;
        KeptShorter(lines, |lines|);
        assert HasBcc(lines, |lines|) by {
          if !HasBcc(lines, |lines|) {
            NoBccIsClean(lines, |lines|);
          }
        }
        KeptClean(lines, |lines|);
        JoinLength(lines);
        JoinLength(kept);
        assert |Stripped(raw)| < |raw|;
      }
    }
  }

  predicate EndsCR(line: string) {
    line != "" && line[|line| - 1] == '\r'
  }

  lemma {:induction false} LastKept(lines: seq<string>, n: nat)
    requires n <= |lines| && Kept(lines, n) != []
    ensures var kept := Kept(lines, n);
            exists k :: 0 <= k < n && kept[|kept| - 1] == lines[k] && (k == n - 1 <==> !InBccField(lines, n - 1))
  {
    if InBccField(lines, n - 1) {
      LastKept(lines, n - 1);
      var kept := Kept(lines, n - 1);
      var k :| 0 <= k < n - 1 && kept[|kept| - 1] == lines[k];
    } else {
      assert lines[n - 1] == lines[n - 1];
    }
  }

  // ---------- the stray carriage return ----------

  lemma {:induction false} KeptNothingIff(lines: seq<string>, n: nat)
    requires n <= |lines|
    ensures Kept(lines, n) == [] <==> forall k :: 0 <= k < n ==> InBccField(lines, k)
  {
    if n > 0 {
      KeptNothingIff(lines, n - 1);
    }
  }

  lemma JoinEndsCR(lines: seq<string>)
    requires lines != []
    ensures EndsCR(Join(lines, '\n')) <==> EndsCR(lines[|lines| - 1])
  {
  }

  /** The lines of a header in CRLF form: each but the last ends in the carriage return of its line break. */
  ghost predicate CrlfLines(lines: seq<string>) {
    && lines != [] && !EndsCR(lines[|lines| - 1])
    && forall i :: 0 <= i < |lines| - 1 ==> EndsCR(lines[i])
  }

  lemma LastKeptCR(lines: seq<string>)
    requires CrlfLines(lines) && Kept(lines, |lines|) != []
    ensures EndsCR(Join(Kept(lines, |lines|), '\n')) <==> InBccField(lines, |lines| - 1)
  {
    var kept := Kept(lines, |lines|);
    LastKept(lines, |lines|);
    JoinEndsCR(kept);
  }

  lemma CRBefore(head: string, body: string)
    requires |body| >= 4 && body[..4] == CRLF_BLANK
    ensures EndsCR(head) <==> |head| > 0 && OccursAt(head + body, "\r" + CRLF_BLANK, |head| - 1)
  {
    if |head| > 0 {
      var out := head + body;
      assert out[|head| - 1..|head| + 4] == [head[|head| - 1]] + body[..4];
      assert ("\r" + CRLF_BLANK)[0] == '\r' && ([head[|head| - 1]] + body[..4])[0] == head[|head| - 1];
    }
  }

  lemma HeaderEndsCR(header: string)
    requires CrlfLines(Split(header, '\n'))
    ensures var lines := Split(header, '\n');
            EndsCR(StrippedHeader(header)) <==> InBccField(lines, |lines| - 1) && KeepsSome(lines)
  {
    var lines := Split(header, '\n');
    KeptNothingIff(lines, |lines|);
    if Kept(lines, |lines|) != [] {
      LastKeptCR(lines);
    }
  }

  ghost predicate KeepsSome(lines: seq<string>) {
    exists k :: 0 <= k < |lines| && !InBccField(lines, k)
  }

  lemma StrippedAt(raw: string, idx: nat)
    requires Index(raw, CRLF_BLANK) == Some(idx)
    ensures Stripped(raw) == StrippedHeader(raw[..idx]) + raw[idx..] && |raw[idx..]| >= 4 &&
            raw[idx..][..4] == CRLF_BLANK
  {
    assert raw[idx..][..4] == raw[idx..idx + 4];
  }

  /**
   A blemish of the cut: in a CRLF header the carriage return of the last line belongs to
   the boundary. When a Bcc field comes last, the line kept before it still has its own,
   and the result has a stray carriage return where its header ends. It has one exactly in
   that case, unless nothing of the header is kept.
   */
  lemma BareCRIff(raw: string, idx: nat)
    requires Index(raw, CRLF_BLANK) == Some(idx) && CrlfLines(Split(raw[..idx], '\n'))
    ensures var lines, h := Split(raw[..idx], '\n'), |StrippedHeader(raw[..idx])|;
            h > 0 && OccursAt(Stripped(raw), "\r" + CRLF_BLANK, h - 1) <==>
            InBccField(lines, |lines| - 1) && KeepsSome(lines)
  {
    StrippedAt(raw, idx);
    HeaderEndsCR(raw[..idx]);
    CRBefore(StrippedHeader(raw[..idx]), raw[idx..]);
  }

  const STRAY := "A:\r\nBcc:\r\n\r\n"

  lemma OccursChars(s: string, pat: string, i: nat, j: nat)
    requires OccursAt(s, pat, i) && j < |pat|
    ensures s[i + j] == pat[j]
  {
    assert s[i..i + |pat|][j] == s[i + j];
  }

  lemma StrayBoundary()
    ensures Index(STRAY, CRLF_BLANK) == Some(8)
  {
    assert STRAY[8..12] == CRLF_BLANK;
    assert OccursAt(STRAY, CRLF_BLANK, 8);
    var k := Index(STRAY, CRLF_BLANK).value;
    OccursChars(STRAY, CRLF_BLANK, k, 0);
    OccursChars(STRAY, CRLF_BLANK, k, 2);
    assert k == 2 || k == 8 || k == 10;
  }

  lemma SecondDropped(a: string, b: string)
    requires !IsBcc(a) && IsBcc(b)
    ensures Kept([a, b], 2) == [a]
  {
    FieldStep([a, b], 0);
    FieldStep([a, b], 1);
    assert Kept([a, b], 1) == [a];
  }

  lemma TwoLines(a: string, b: string)
    requires '\n' !in a && '\n' !in b
    ensures Split(a + "\n" + b, '\n') == [a, b]
  {
    SplitTwo(a, '\n', b);
    SplitOne(a, '\n');
    SplitOne(b, '\n');
  }

  /** A message that gets one. */
  lemma StrayCarriageReturn()
    ensures Stripped(STRAY) == "A:\r\r\n\r\n"
  {
    StrayBoundary();
    StrippedAt(STRAY, 8);
    StrayHeader();
    assert STRAY[8..] == CRLF_BLANK;
  }

  lemma StrayHeader()
    ensures StrippedHeader(STRAY[..8]) == "A:\r"
  {
    var a, b := "A:\r", "Bcc:";
    assert STRAY[..8] == a + "\n" + b;
    BccStart(a);
    BccStart(b);
    SecondLineGoes(a, b);
  }

  lemma SecondLineGoes(a: string, b: string)
    requires '\n' !in a && '\n' !in b && !IsBcc(a) && IsBcc(b)
    ensures StrippedHeader(a + "\n" + b) == a
  {
    TwoLines(a, b);
    SecondDropped(a, b);
  }

  // ---------- what a mail reader sees ----------

  predicate Blank(line: string) {
    TrimCR(line) == ""
  }

  /** The lines before the first blank one, whichever way lines end. */
  function HeaderLines(lines: seq<string>): seq<string> {
    if lines == [] || Blank(lines[0]) then [] else [lines[0]] + HeaderLines(lines[1..])
  }

  /** Reading the message's header finds a Bcc field. */
  ghost predicate ReaderSeesBcc(raw: string) {
    exists line :: line in HeaderLines(Split(raw, '\n')) && IsBcc(line)
  }

  lemma {:induction false} HeaderStops(a: seq<string>, b: seq<string>)
    requires b != [] && Blank(b[0])
    ensures forall line :: line in HeaderLines(a + b) ==> line in a
  {
    if a == [] {
      assert a + b == b;
    } else {
      assert (a + b)[1..] == a[1..] + b;
      HeaderStops(a[1..], b);
    }
  }

  lemma CarriageReturnAdded(s: string)
    requires Clean(Split(s, '\n'))
    ensures Clean(Split(s + "\r", '\n'))
  {
    var lines, lines' := Split(s, '\n'), Split(s + "\r", '\n');
    assert (s + "\r")[..|s|] == s;
    forall i | 0 <= i < |lines'| ensures !IsBcc(lines'[i]) {
      BccStart(lines'[i]);
      BccStart(lines[i]);
      assert !IsBcc(lines[i]);
    }
  }

  lemma CutCrlf(raw: string, n: nat)
    requires OccursAt(raw, CRLF_BLANK, n)
    ensures Split(raw, '\n') == Split(raw[..n] + "\r", '\n') + (["\r"] + Split(raw[n + 4..], '\n'))
  {
    var rest := raw[n + 4..];
    assert raw[n..n + 4] == CRLF_BLANK;
    assert raw == (raw[..n] + "\r") + ['\n'] + ("\r" + ['\n'] + rest);
    SplitTwo(raw[..n] + "\r", '\n', "\r" + ['\n'] + rest);
    SplitTwo("\r", '\n', rest);
    SplitOne("\r", '\n');
  }

  lemma CutLf(raw: string, n: nat)
    requires OccursAt(raw, LF_BLANK, n)
    ensures Split(raw, '\n') == Split(raw[..n], '\n') + ([""] + Split(raw[n + 2..], '\n'))
  {
    var rest := raw[n + 2..];
    assert raw[n..n + 2] == LF_BLANK;
    assert raw == raw[..n] + ['\n'] + ("" + ['\n'] + rest);
    SplitTwo(raw[..n], '\n', "" + ['\n'] + rest);
    SplitTwo("", '\n', rest);
    SplitOne("", '\n');
  }

  lemma CleanHidden(raw: string)
    requires Boundary(raw).Some? && Clean(Split(raw[..Boundary(raw).value], '\n'))
    ensures !ReaderSeesBcc(raw)
  {
    var n := Boundary(raw).value;
    if Index(raw, CRLF_BLANK).Some? {
      CutCrlf(raw, n);
      CarriageReturnAdded(raw[..n]);
      HeaderStops(Split(raw[..n] + "\r", '\n'), ["\r"] + Split(raw[n + 4..], '\n'));
    } else {
      CutLf(raw, n);
      HeaderStops(Split(raw[..n], '\n'), [""] + Split(raw[n + 2..], '\n'));
    }
  }

  /**
   When a Bcc field survives for a reader: exactly when the message has no blank line in
   either uniform form, so that nothing is stripped, and the reader found one before.
   */
  lemma BccSurvivesIff(raw: string)
    ensures ReaderSeesBcc(Stripped(raw)) <==> Boundary(raw).None? && ReaderSeesBcc(raw)
  {
    if Boundary(raw).Some? {
      NoBccLeft(raw);
      CleanHidden(Stripped(raw));
    }
  }

  const MIXED := "Bcc:x\n\r\nhi"

  lemma MixedUncut()
    ensures Boundary(MIXED).None?
  {
    if Index(MIXED, CRLF_BLANK).Some? {
      var k := Index(MIXED, CRLF_BLANK).value;
      OccursChars(MIXED, CRLF_BLANK, k, 0);
      OccursChars(MIXED, CRLF_BLANK, k, 2);
      assert false;
    }
    if Index(MIXED, LF_BLANK).Some? {
      var k := Index(MIXED, LF_BLANK).value;
      OccursChars(MIXED, LF_BLANK, k, 0);
      OccursChars(MIXED, LF_BLANK, k, 1);
      assert false;
    }
  }

  lemma FirstLineSeen(line: string, rest: string)
    requires '\n' !in line && IsBcc(line)
    ensures ReaderSeesBcc(line + "\n" + rest)
  {
    SplitTwo(line, '\n', rest);
    SplitOne(line, '\n');
    HeaderStarts(line, Split(rest, '\n'));
  }

  lemma HeaderStarts(line: string, rest: seq<string>)
    requires IsBcc(line)
    ensures line in HeaderLines([line] + rest)
  {
    assert ([line] + rest)[0] == line;
  }

  lemma MixedText()
    ensures MIXED == "Bcc:x" + "\n" + "\r\nhi"
  {
  }

  /** A message whose blank line mixes the two forms goes out with its Bcc field. */
  lemma MixedKeepsBcc()
    ensures Stripped(MIXED) == MIXED && ReaderSeesBcc(Stripped(MIXED))
  {
    MixedUncut();
    MixedText();
    BccStart("Bcc:x");
    FirstLineSeen("Bcc:x", "\r\nhi");
  }
}
