/**
 Attachments: one walk of the MIME tree lists them with their positions, a second,
 separate walk fetches the one a FileReference names. The two must number the leaves
 alike.
 */
module Attachments {
  import opened Strconv
  import opened Text

  /** A parsed MIME part; `content` is its decoded body, None when it does not decode. */
  datatype Part = Part(disposition: string, typ: string, subtype: string, fileName: string, size: int,
                       content: Option<string>, children: seq<Part>)

  function MediaType(p: Part): string {
    p.typ + "/" + p.subtype
  }

  predicate IsAttachment(p: Part) {
    p.disposition == "attachment"
  }

  /** The attachment leaves of a tree, depth first. */
  function Leaves(p: Part): seq<Part>
    decreases p, 1
  {
    if p.children == [] then (if IsAttachment(p) then [p] else []) else LeavesOf(p.children)
  }

  function LeavesOf(ps: seq<Part>): seq<Part>
    decreases ps, 0
  {
    if ps == [] then [] else Leaves(ps[0]) + LeavesOf(ps[1..])
  }

  // ---------- which parts are attachments ----------

  /** q is p or one of its descendants. */
  predicate Within(q: Part, p: Part)
    decreases p, 1
  {
    q == p || WithinOne(q, p.children)
  }

  predicate WithinOne(q: Part, ps: seq<Part>)
    decreases ps, 0
  {
    ps != [] && (Within(q, ps[0]) || WithinOne(q, ps[1..]))
  }

  /** The attachments are the parts without parts of their own whose disposition is "attachment". */
  lemma {:induction false} LeavesIff(p: Part, q: Part)
    ensures q in Leaves(p) <==> Within(q, p) && q.children == [] && q.disposition == "attachment"
    decreases p, 1
  {
    if p.children != [] {
      LeavesOfIff(p.children, q);
    }
  }

  lemma {:induction false} LeavesOfIff(ps: seq<Part>, q: Part)
    ensures q in LeavesOf(ps) <==> WithinOne(q, ps) && q.children == [] && q.disposition == "attachment"
    decreases ps, 0
  {
    if ps != [] {
      LeavesIff(ps[0], q);
      LeavesOfIff(ps[1..], q);
    }
  }

  // ---------- the listing walk ----------

  datatype Info = Info(displayName: string, contentType: string, size: int, index: nat)

  function InfoOf(p: Part, index: nat): Info {
    Info(if p.fileName != "" then p.fileName else "attachment" + FormatInt(index + 1), MediaType(p), p.size, index)
  }

  /** `out` lists `leaves` from position `base` on. */
  ghost predicate Lists(out: seq<Info>, leaves: seq<Part>, base: nat) {
    |out| == base + |leaves| && forall i :: 0 <= i < |leaves| ==> out[base + i] == InfoOf(leaves[i], base + i)
  }

  method ListWalk(p: Part, out: seq<Info>) returns (out': seq<Info>)
    ensures out <= out' && Lists(out', Leaves(p), |out|)
    decreases p, 1
  {
    if p.children == [] {
      if IsAttachment(p) {
        return out + [InfoOf(p, |out|)];
      }
      return out;
    }
    out' := ListChildren(p.children, out);
  }

  method ListChildren(ps: seq<Part>, out: seq<Info>) returns (out': seq<Info>)
    ensures out <= out' && Lists(out', LeavesOf(ps), |out|)
    decreases ps, 0
  {
    if ps == [] {
      return out;
    }
    var first := ListWalk(ps[0], out);
    out' := ListChildren(ps[1..], first);
    ListsConcat(out, first, out', Leaves(ps[0]), LeavesOf(ps[1..]));
  }

  lemma ListsConcat(out: seq<Info>, mid: seq<Info>, out': seq<Info>, a: seq<Part>, b: seq<Part>)
    requires out <= mid <= out' && Lists(mid, a, |out|) && Lists(out', b, |mid|)
    ensures Lists(out', a + b, |out|)
  {
    forall i | 0 <= i < |a + b| ensures out'[|out| + i] == InfoOf((a + b)[i], |out| + i) {
      if i < |a| {
        assert out'[|out| + i] == mid[|out| + i];
      } else {
        assert out'[|mid| + (i - |a|)] == InfoOf(b[i - |a|], |mid| + (i - |a|));
      }
    }
  }

  method MessageAttachments(root: Option<Part>) returns (out: seq<Info>)
    ensures Lists(out, if root.None? then [] else Leaves(root.value), 0)
  {
    out := [];
    if root.Some? {
      out := ListWalk(root.value, []);
    }
  }

  /**
   A listed attachment: its own file name or "attachment" with its number from 1, its type,
   its size, its position.
   */
  lemma ListedAs(root: Part, out: seq<Info>, i: nat)
    requires Lists(out, Leaves(root), 0) && i < |out|
    ensures var p := Leaves(root)[i];
            && out[i].displayName == (if p.fileName != "" then p.fileName else "attachment" + FormatInt(i + 1))
            && out[i].contentType == p.typ + "/" + p.subtype && out[i].size == p.size && out[i].index == i
  {
    assert out[0 + i] == InfoOf(Leaves(root)[i], 0 + i);
  }

  // ---------- the fetching walk ----------

  /** Searching `leaves`, the first of them counted `n`, for the leaf counted `index`. */
  ghost predicate Searched(leaves: seq<Part>, index: int, n: nat, n': nat, found: Option<Part>) {
    if n <= index < n + |leaves| then found == Some(leaves[index - n])
    else found.None? && n' == n + |leaves|
  }

  /** attachmentContent's walk: it stops counting once the part is found. */
  method FindWalk(p: Part, index: int, n: nat) returns (n': nat, found: Option<Part>)
    ensures Searched(Leaves(p), index, n, n', found)
    decreases p, 1
  {
    n', found := n, None;
    if p.children == [] {
      if IsAttachment(p) {
        if n == index {
          found := Some(p);
        }
        n' := n + 1;
      }
      return;
    }
    n', found := FindInChildren(p.children, index, n);
  }

  method FindInChildren(ps: seq<Part>, index: int, n: nat) returns (n': nat, found: Option<Part>)
    ensures Searched(LeavesOf(ps), index, n, n', found)
    decreases ps, 0
  {
    if ps == [] {
      return n, None;
    }
    n', found := FindWalk(ps[0], index, n);
    if found.None? {
      n', found := FindInChildren(ps[1..], index, n');
    }
  }

  /** The index-th attachment's decoded content and type; None when there is none or it does not decode. */
  method AttachmentContent(root: Option<Part>, index: int) returns (r: Option<(string, string)>)
    ensures var leaves := if root.None? then [] else Leaves(root.value);
            r == if 0 <= index < |leaves| && leaves[index].content.Some?
                 then Some((leaves[index].content.value, MediaType(leaves[index]))) else None
  {
    if root.None? {
      return None;
    }
    var n, found := FindWalk(root.value, index, 0);
    if found.None? || found.value.content.None? {
      return None;
    }
    return Some((found.value.content.value, MediaType(found.value)));
  }

  // ---------- file references ----------

  function FileRef(collId: string, serverId: string, index: nat): string {
    collId + ":" + serverId + ":" + FormatInt(index)
  }

  datatype Ref = Ref(collId: string, serverId: string, index: nat)

  /** parseFileRef: three parts at the first two colons, the ids non-empty, the index not negative. */
  function ParseFileRef(ref: string): Option<Ref> {
    match Cut(ref, ':')
    case None => None
    case Some((collId, rest)) =>
      match Cut(rest, ':')
      case None => None
      case Some((serverId, last)) =>
        match ParseInt(last)
        case None => None
        case Some(index) =>
          if collId == "" || serverId == "" || index < 0 then None else Some(Ref(collId, serverId, index))
  }

  /** The reference of the first attachment of message 42 in collection 13. */
  lemma FirstReference()
    ensures FileRef("13", "42", 0) == "13:42:0"
  {
    assert FormatInt(0) == "0";
  }

  /** A reference reads back as what it was built from exactly when both ids are non-empty and free of colons. */
  lemma FileRefReadsBackIff(collId: string, serverId: string, index: nat)
    requires index < TWO_63
    ensures ParseFileRef(FileRef(collId, serverId, index)) == Some(Ref(collId, serverId, index)) <==>
            collId != "" && serverId != "" && ':' !in collId && ':' !in serverId
  {
    var last := FormatInt(index);
    if ':' !in collId && ':' !in serverId {
      assert FileRef(collId, serverId, index) == collId + ":" + (serverId + ":" + last);
      CutFirst(collId, ':', serverId + ":" + last);
      CutFirst(serverId, ':', last);
      ParseFormatInt(index);
    }
  }

  /**
   Attachment references resolve: the reference listed for attachment i leads the
   fetching walk to the very leaf the listing walk numbered i, and an index past the list
   leads nowhere.
   */
  method FetchListed(root: Option<Part>, collId: string, serverId: string, i: nat)
    returns (listed: seq<Info>, r: Option<(string, string)>)
    requires collId != "" && serverId != "" && ':' !in collId && ':' !in serverId && i < TWO_63
    ensures var leaves := if root.None? then [] else Leaves(root.value);
            && |listed| == |leaves|
            && (i < |listed| ==>
                  && listed[i] == InfoOf(leaves[i], i)
                  && (r.Some? <==> leaves[i].content.Some?)
                  && (r.Some? ==> r.value == (leaves[i].content.value, listed[i].contentType)))
            && (i >= |listed| ==> r.None?)
  {
    listed := MessageAttachments(root);
    var ref := FileRef(collId, serverId, if i < |listed| then listed[i].index else i);
    FileRefReadsBackIff(collId, serverId, i);
    r := AttachmentContent(root, ParseFileRef(ref).value.index);
  }
}
