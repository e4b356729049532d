/** MIME part addressing (internal/imaplistener/listener.go: findImageParts,
    fetchImageAttachments, partsEqual).

    A place says how to walk down the body structure to a part; the code uses places as the
    section numbers it asks the server for.  What the server takes a section number to mean
    is written out from section 6.4.5 of RFC 3501: the two differ for a message that is not
    multipart. */
module MimeParts {

  import opened Common

  const MAX_IMAGE_SIZE: nat := 5 * 1024 * 1024
  const MAX_IMAGE_ATTACHMENTS: nat := 4

  /** A body structure; `mediaType` is the media type in lower case. */
  datatype Body =
    | Single(mediaType: string, filename: string, size: nat)
    | Multi(children: seq<Body>)

  type Path = seq<nat>

  datatype ImagePart = ImagePart(part: Path, mediaType: string, filename: string, size: nat)

  predicate IsImage(b: Body) {
    && b.Single?
    && b.mediaType in {"image/jpeg", "image/png", "image/gif", "image/webp"}
    && b.size <= MAX_IMAGE_SIZE
  }

  function FindImageParts(b: Body, path: Path): seq<ImagePart>
    decreases b, 0
  {
    match b
    case Single(mediaType, filename, size) =>
      if IsImage(b) then [ImagePart(path, mediaType, filename, size)] else []
    case Multi(children) => FindInChildren(children, path, |children|)
  }

  /** The parts of the first `n` children, numbered from 1. */
  function FindInChildren(children: seq<Body>, path: Path, n: nat): seq<ImagePart>
    requires n <= |children|
    decreases children, n
  {
    if n == 0 then []
    else FindInChildren(children, path, n - 1) + FindImageParts(children[n - 1], path + [n])
  }

  /** The part at a place, walking down from the root. */
  function Resolve(b: Body, path: Path): Option<Body>
    decreases |path|
  {
    if path == [] then Some(b)
    else if b.Multi? && 1 <= path[0] <= |b.children| then Resolve(b.children[path[0] - 1], path[1..])
    else None
  }

  /** Left-to-right order of part numbers. */
  predicate Before(a: Path, b: Path)
    decreases |a|
  {
    b != [] && (a == [] || a[0] < b[0] || (a[0] == b[0] && Before(a[1..], b[1..])))
  }

  // ---------------------------------------------------------------- every listed part is right

  /** `p` describes the leaf at `rel` below the part whose path is `path`. */
  ghost predicate Describes(p: ImagePart, b: Body, path: Path, rel: Path) {
    && p.part == path + rel
    && Resolve(b, rel).Some? && IsImage(Resolve(b, rel).value)
    && Resolve(b, rel).value == Single(p.mediaType, p.filename, p.size)
  }

  lemma {:induction false} ListedInChildren(children: seq<Body>, path: Path, n: nat, p: ImagePart) returns (rel: Path)
    requires n <= |children| && p in FindInChildren(children, path, n)
    ensures Describes(p, Multi(children), path, rel) && rel != [] && 1 <= rel[0] <= n
    decreases children, n
  {
    if p in FindInChildren(children, path, n - 1) {
      rel := ListedInChildren(children, path, n - 1, p);
    } else {
      var below := ListedResolves(children[n - 1], path + [n], p);
      rel := [n] + below;
      assert path + rel == path + [n] + below;
      assert rel[1..] == below;
    }
  }

  /** A listed path is the place of an eligible image leaf with exactly the listed media type,
      file name and size. */
  lemma {:induction false} ListedResolves(b: Body, path: Path, p: ImagePart) returns (rel: Path)
    requires p in FindImageParts(b, path)
    ensures Describes(p, b, path, rel)
    ensures p.part == path + rel && Resolve(b, rel) == Some(Single(p.mediaType, p.filename, p.size))
    ensures p.mediaType in {"image/jpeg", "image/png", "image/gif", "image/webp"} && p.size <= 5 * 1024 * 1024
    decreases b, 0
  {
    if b.Single? {
      rel := [];
      assert path + [] == path;
    } else {
      rel := ListedInChildren(b.children, path, |b.children|, p);
    }
  }

  // ---------------------------------------------------------------- nothing is missed

  lemma {:induction false} ChildIsListed(children: seq<Body>, path: Path, n: nat, k: nat, p: ImagePart)
    requires 1 <= k <= n <= |children| && p in FindImageParts(children[k - 1], path + [k])
    ensures p in FindInChildren(children, path, n)
    decreases n
  {
    if k < n {
      ChildIsListed(children, path, n - 1, k, p);
    }
  }

  /** Every JPEG, PNG, GIF or WebP leaf of at most 5 MiB is listed, under its own place. */
  lemma {:induction false} ImageIsListed(b: Body, path: Path, rel: Path)
    requires Resolve(b, rel).Some? && Resolve(b, rel).value.Single?
    requires Resolve(b, rel).value.mediaType in {"image/jpeg", "image/png", "image/gif", "image/webp"}
    requires Resolve(b, rel).value.size <= 5 * 1024 * 1024
    ensures var leaf := Resolve(b, rel).value;
            ImagePart(path + rel, leaf.mediaType, leaf.filename, leaf.size) in FindImageParts(b, path)
    decreases |rel|
  {
    var leaf := Resolve(b, rel).value;
    var p := ImagePart(path + rel, leaf.mediaType, leaf.filename, leaf.size);
    if rel == [] {
      assert path + rel == path;
    } else {
      ImageIsListed(b.children[rel[0] - 1], path + [rel[0]], rel[1..]);
      assert path + [rel[0]] + rel[1..] == path + rel;
      ChildIsListed(b.children, path, |b.children|, rel[0], p);
    }
  }

  // ---------------------------------------------------------------- order, hence no duplicates

  ghost predicate Ordered(parts: seq<ImagePart>) {
    forall i, j | 0 <= i < j < |parts| :: Before(parts[i].part, parts[j].part)
  }

  lemma {:induction false} BeforeUnderPrefix(path: Path, a: Path, b: Path)
    ensures Before(path + a, path + b) == Before(a, b)
    decreases |path|
  {
    if path == [] {
      assert path + a == a && path + b == b;
    } else {
      assert (path + a)[1..] == path[1..] + a && (path + b)[1..] == path[1..] + b;
      BeforeUnderPrefix(path[1..], a, b);
    }
  }

  lemma {:induction false} NotBeforeItself(a: Path)
    ensures !Before(a, a)
    decreases |a|
  {
    if a != [] {
      NotBeforeItself(a[1..]);
    }
  }

  lemma {:induction false} ChildrenAreOrdered(children: seq<Body>, path: Path, n: nat)
    requires n <= |children|
    ensures Ordered(FindInChildren(children, path, n))
    decreases children, n
  {
    if n > 0 {
      var left, right := FindInChildren(children, path, n - 1), FindImageParts(children[n - 1], path + [n]);
      ChildrenAreOrdered(children, path, n - 1);
      PartsAreOrdered(children[n - 1], path + [n]);
      forall i, j | 0 <= i < |left| && 0 <= j < |right|
        ensures Before(left[i].part, right[j].part)
      {
        var a := ListedInChildren(children, path, n - 1, left[i]);
        var b := ListedResolves(children[n - 1], path + [n], right[j]);
        assert path + [n] + b == path + ([n] + b);
        BeforeUnderPrefix(path, a, [n] + b);
      }
      OrderedConcat(left, right);
    }
  }

  lemma OrderedConcat(left: seq<ImagePart>, right: seq<ImagePart>)
    requires Ordered(left) && Ordered(right)
    requires forall i, j | 0 <= i < |left| && 0 <= j < |right| :: Before(left[i].part, right[j].part)
    ensures Ordered(left + right)
  {
  }

  /** The parts are listed in strict left-to-right order. */
  lemma {:induction false} PartsAreOrdered(b: Body, path: Path)
    ensures Ordered(FindImageParts(b, path))
    decreases b, 0
  {
    if b.Multi? {
      ChildrenAreOrdered(b.children, path, |b.children|);
    }
  }

  ghost predicate Distinct(parts: seq<ImagePart>) {
    forall i, j | 0 <= i < j < |parts| :: parts[i].part != parts[j].part
  }

  /** No two listed parts share a path, so each image leaf is listed exactly once. */
  lemma PathsDiffer(b: Body)
    ensures Distinct(FindImageParts(b, []))
  {
    var parts := FindImageParts(b, []);
    PartsAreOrdered(b, []);
    forall i, j | 0 <= i < j < |parts|
      ensures parts[i].part != parts[j].part
    {
      NotBeforeItself(parts[i].part);
    }
  }

  // ---------------------------------------------------------------- section numbers

  /** What a section number stands for: the whole message with its header, the part at some
      place, or nothing. */
  datatype Target = Whole | PartAt(place: Path) | Nothing

  /** The empty section is the whole message; a message that is not multipart has only part 1;
      the parts of a multipart are numbered from 1 at each level. */
  function Address(root: Body, section: Path): Target {
    if section == [] then Whole
    else if root.Single? then (if section == [1] then PartAt([]) else Nothing)
    else if Resolve(root, section).Some? then PartAt(section)
    else Nothing
  }

  /** The section number of the part at a place. */
  function SectionOf(root: Body, place: Path): Path {
    if root.Single? then [1] else place
  }

  /** Every leaf has a section number, and it is the only one. */
  lemma SectionOfIsTheAddress(root: Body, place: Path, section: Path)
    requires Resolve(root, place).Some? && Resolve(root, place).value.Single?
    ensures Address(root, section) == PartAt(place) <==> section == SectionOf(root, place)
  {
  }

  /** A listed part is asked for under the section number of its leaf. */
  ghost predicate AskedRightly(root: Body, p: ImagePart) {
    exists place ::
      && Address(root, p.part) == PartAt(place) && Resolve(root, place).Some?
      && Resolve(root, place).value == Single(p.mediaType, p.filename, p.size)
  }

  /** A listed part is asked for rightly exactly when the message is multipart. */
  lemma AskedRightlyIff(root: Body, p: ImagePart)
    requires p in FindImageParts(root, [])
    ensures AskedRightly(root, p) <==> root.Multi?
    ensures Address(root, p.part) == if root.Multi? then PartAt(p.part) else Whole
  {
    var rel := ListedResolves(root, [], p);
    assert [] + rel == rel;
    if root.Multi? {
      assert Address(root, p.part) == PartAt(rel);
    }
  }

  /** For every message: all listed paths are the section numbers of their leaves if and only
      if the message is multipart or nothing is listed. */
  lemma ListedAreSectionsIff(root: Body)
    ensures (forall p | p in FindImageParts(root, []) :: AskedRightly(root, p)) <==>
            root.Multi? || FindImageParts(root, []) == []
  {
    forall p | p in FindImageParts(root, [])
      ensures AskedRightly(root, p) <==> root.Multi?
    {
      AskedRightlyIff(root, p);
    }
    if root.Single? && FindImageParts(root, []) != [] {
      assert FindImageParts(root, [])[0] in FindImageParts(root, []);
    }
  }

  /** A message that is itself an eligible image is listed under the empty path, which names
      the whole message, header included; its own number would be 1. */
  lemma RootImageIsAskedWrongly(root: Body)
    requires IsImage(root)
    ensures FindImageParts(root, []) == [ImagePart([], root.mediaType, root.filename, root.size)]
    ensures Address(root, []) == Whole && Address(root, [1]) == PartAt([])
    ensures !AskedRightly(root, FindImageParts(root, [])[0])
  {
  }

  // ---------------------------------------------------------------- pairing fetched sections

  /** One section of the fetch response. */
  datatype Section = Section(part: Path, bytes: string)

  /** `data` is the content as base64. */
  datatype Attachment = Attachment(filename: string, mediaType: string, data: string)

  /** A message on the server: its structure, its full text, and the content of the part at
      each place. */
  datatype Message = Message(root: Body, raw: string, content: Path -> string)

  /** What the server answers for a section number. */
  function ServerBytes(m: Message, section: Path): string {
    match Address(m.root, section)
    case Whole => m.raw
    case PartAt(place) => m.content(place)
    case Nothing => ""
  }

  ghost predicate Honest(m: Message, sections: seq<Section>) {
    forall i | 0 <= i < |sections| :: sections[i].bytes == ServerBytes(m, sections[i].part)
  }

  datatype Cargo = Leaf | WholeMessage

  /** The attachment has the name and type of one of the parts and this cargo. */
  ghost predicate Carries(m: Message, parts: seq<ImagePart>, a: Attachment, cargo: Cargo, encode: string -> string) {
    exists k | 0 <= k < |parts| ::
      a == Attachment(parts[k].filename, parts[k].mediaType,
                      encode(if cargo == Leaf then m.content(parts[k].part) else m.raw))
  }

  lemma {:induction false} UsefulAreSections(parts: seq<ImagePart>, sections: seq<Section>)
    ensures forall i | 0 <= i < |Useful(parts, sections)| :: Useful(parts, sections)[i] in sections
  {
    if sections != [] {
      UsefulAreSections(parts, sections[..|sections| - 1]);
    }
  }

  lemma PairsCarry(m: Message, parts: seq<ImagePart>, sections: seq<Section>, attachments: seq<Attachment>,
                   encode: string -> string)
    requires Honest(m, sections) && parts == Requested(FindImageParts(m.root, []))
    requires |attachments| == |Useful(parts, sections)|
    requires forall i | 0 <= i < |attachments| :: Pairs(parts, Useful(parts, sections)[i], attachments[i], encode)
    ensures forall i | 0 <= i < |attachments| ::
              Carries(m, parts, attachments[i], if m.root.Multi? then Leaf else WholeMessage, encode)
  {
    UsefulAreSections(parts, sections);
    forall i | 0 <= i < |attachments|
      ensures Carries(m, parts, attachments[i], if m.root.Multi? then Leaf else WholeMessage, encode)
    {
      var section := Useful(parts, sections)[i];
      assert Pairs(parts, section, attachments[i], encode);
      var k :| 0 <= k < |parts| && parts[k].part == section.part
               && attachments[i] == Attachment(parts[k].filename, parts[k].mediaType, encode(section.bytes));
      assert parts[k] in FindImageParts(m.root, []);
      AskedRightlyIff(m.root, parts[k]);
    }
  }

  method PartsEqual(a: Path, b: Path) returns (equal: bool)
    ensures equal <==> a == b
  {
    if |a| != |b| {
      return false;
    }
    for i := 0 to |a|
      invariant a[..i] == b[..i]
    {
      if a[i] != b[i] {
        return false;
      }
    }
    equal := true;
  }

  /** The parts that are requested: at most four. */
  function Requested(parts: seq<ImagePart>): seq<ImagePart> {
    if |parts| > MAX_IMAGE_ATTACHMENTS then parts[..MAX_IMAGE_ATTACHMENTS] else parts
  }

  /** The first four listed parts are requested, or all if there are fewer. */
  lemma FirstFourAreRequested(parts: seq<ImagePart>)
    ensures Requested(parts) <= parts
    ensures |Requested(parts)| == if |parts| < 4 then |parts| else 4
  {
  }

  /** `a` is the image the section belongs to, and the only listed one it can belong to. */
  ghost predicate Pairs(parts: seq<ImagePart>, s: Section, a: Attachment, encode: string -> string) {
    exists k | 0 <= k < |parts| ::
      && parts[k].part == s.part
      && a == Attachment(parts[k].filename, parts[k].mediaType, encode(s.bytes))
      && forall j | 0 <= j < |parts| && j != k :: parts[j].part != s.part
  }

  /** The sections that yield an attachment: non-empty and requested. */
  function Useful(parts: seq<ImagePart>, sections: seq<Section>): seq<Section> {
    if sections == [] then []
    else
      var before := Useful(parts, sections[..|sections| - 1]);
      var s := sections[|sections| - 1];
      if s.bytes != "" && (exists k | 0 <= k < |parts| :: parts[k].part == s.part) then before + [s] else before
  }

  /** Sections are taken one by one and in order: one is useful if it has bytes and its path is
      that of a requested part. */
  lemma {:induction false} UsefulInTurn(parts: seq<ImagePart>, sections: seq<Section>, s: Section)
    ensures Useful(parts, []) == []
    ensures Useful(parts, sections + [s]) ==
            Useful(parts, sections) +
            (if s.bytes != "" && (exists k | 0 <= k < |parts| :: parts[k].part == s.part) then [s] else [])
  {
    assert (sections + [s])[..|sections|] == sections;
  }

  /** Every useful section becomes one attachment, in order, and carries the name and type
      of exactly the part it was fetched for.  If the sections are what the server holds and
      the message is multipart, each attachment is the content of that leaf; if it is not
      multipart, the one attachment is the whole message. */
  method FetchImageAttachments(m: Message, sections: seq<Section>, encode: string -> string)
    returns (attachments: seq<Attachment>)
    ensures var parts := Requested(FindImageParts(m.root, []));
            var useful := Useful(parts, sections);
            && |attachments| == |useful|
            && (forall i | 0 <= i < |useful| :: Pairs(parts, useful[i], attachments[i], encode))
            && (Honest(m, sections) ==>
                  forall i | 0 <= i < |useful| ::
                    Carries(m, parts, attachments[i], if m.root.Multi? then Leaf else WholeMessage, encode))
  {
    ghost var b := m.root;
    PathsDiffer(b);
    var parts := FindImageParts(m.root, []);
    if |parts| > MAX_IMAGE_ATTACHMENTS {
      parts := parts[..MAX_IMAGE_ATTACHMENTS];
    }
    attachments := [];
    for n := 0 to |sections|
      invariant |attachments| == |Useful(parts, sections[..n])|
      invariant forall i | 0 <= i < |attachments| :: Pairs(parts, Useful(parts, sections[..n])[i], attachments[i], encode)
    {
      assert sections[..n + 1][..n] == sections[..n];
      var section := sections[n];
      if |section.bytes| == 0 {
        continue;
      }
      var k := FindPart(parts, section.part);
      if k < |parts| {
        var a := Attachment(parts[k].filename, parts[k].mediaType, encode(section.bytes));
        assert Pairs(parts, section, a, encode);
        attachments := attachments + [a];
      }
    }
    assert sections[..|sections|] == sections;
    if Honest(m, sections) {
      PairsCarry(m, parts, sections, attachments, encode);
    }
  }

  /** The inner loop: the first part with this path, or the length if there is none. */
  method FindPart(parts: seq<ImagePart>, path: Path) returns (k: nat)
    ensures k <= |parts| && (k < |parts| ==> parts[k].part == path)
    ensures forall j | 0 <= j < k :: parts[j].part != path
  {
    for i := 0 to |parts|
      invariant forall j | 0 <= j < i :: parts[j].part != path
    {
      var equal := PartsEqual(path, parts[i].part);
      if equal {
        return i;
      }
    }
    k := |parts|;
  }
}
