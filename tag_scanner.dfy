/** The tag-tree scan: `processTag` (HeadExtractor.java lines 291-324).

    `Candidates` is the specification: the strings the scan hands to the
    consumer, read off the tree recursively.  `ProcessTag` is the source's
    worklist loop over an `ArrayDeque`: `pop()` takes from the front and
    `add`/`addAll`/`addLast` append at the back, so the tree is walked
    breadth first. */
module TagScanner {
  import opened Options
  import opened Tags
  import TextScanner

  /** Lists of these element kinds may hold a profile (line 300). */
  predicate CanHoldProfile(kind: Kind) {
    kind == String || kind == List || kind == Compound
  }

  /** A list the scan descends into: one that may hold a profile and has
      neither of the two names handled in place. */
  predicate Descends(name: string, kind: Kind) {
    CanHoldProfile(kind) && name != "textures" && name != "properties"
  }

  /** The legacy `textures` list: the String child "Value" of its first
      element, when that element is a compound. */
  function TexturesValue(elements: seq<Tag>): (r: seq<string>)
    ensures |r| <= 1
    ensures r != [] ==>
      |elements| != 0 && elements[0].CompoundTag? && Get(elements[0].children, "Value") == Some(StringTag("Value", r[0]))
  {
    if |elements| != 0 && elements[0].CompoundTag? then
      match Get(elements[0].children, "Value")
      case Some(StringTag(_, value)) => [value]
      case _ => []
    else []
  }

  /** The item-component `properties` list: the String child "value" of its
      first element, when that element is a compound whose String child
      "name" is "textures". */
  function PropertiesValue(elements: seq<Tag>): (r: seq<string>)
    ensures |r| <= 1
    ensures r != [] ==>
      |elements| != 0 && elements[0].CompoundTag? &&
      Get(elements[0].children, "name") == Some(StringTag("name", "textures")) &&
      Get(elements[0].children, "value") == Some(StringTag("value", r[0]))
  {
    if |elements| != 0 && elements[0].CompoundTag? then
      match (Get(elements[0].children, "name"), Get(elements[0].children, "value"))
      case (Some(StringTag(_, name)), Some(StringTag(_, value))) =>
        if name == "textures" then [value] else []
      case _ => []
    else []
  }

  /** Specification of the scan: the candidates of a tree, read off it
      recursively.  A numeric or array tag matches none of the scan's
      `instanceof` tests and yields nothing. */
  function Candidates(t: Tag): (r: seq<string>)
    ensures t.ValueTag? ==> r == []
  {
    match t
    case StringTag(_, value) => TextScanner.ScanText(value)
    case CompoundTag(_, children) => CandidatesOf(children)
    case ListTag(name, kind, elements) =>
      if !CanHoldProfile(kind) then []
      else if name == "textures" then TexturesValue(elements)
      else if name == "properties" then PropertiesValue(elements)
      else CandidatesOf(elements)
    case ValueTag(_, _) => []
  }

  function CandidatesOf(ts: seq<Tag>): seq<string>
  {
    if ts == [] then [] else Candidates(ts[0]) + CandidatesOf(ts[1..])
  }

  /** What one tag, once popped, hands to the consumer itself: a compound
      or a numeric tag nothing, a list at most one candidate. */
  function Emitted(t: Tag): (r: seq<string>)
    ensures t.CompoundTag? || t.ValueTag? ==> r == []
    ensures t.ListTag? ==> |r| <= 1
  {
    match t
    case StringTag(_, value) => TextScanner.ScanText(value)
    case ListTag(name, kind, elements) =>
      if CanHoldProfile(kind) && name == "textures" then TexturesValue(elements)
      else if CanHoldProfile(kind) && name == "properties" then PropertiesValue(elements)
      else []
    case _ => []
  }

  /** What one tag, once popped, appends to the worklist. */
  function Enqueued(t: Tag): (r: seq<Tag>)
    ensures SizeOf(r) < Size(t)
  {
    match t
    case CompoundTag(_, children) => children
    case ListTag(name, kind, elements) => if Descends(name, kind) then elements else []
    case _ => []
  }

  /** u is popped at some point when the scan starts at t; it lies inside
      t, so it is no larger. */
  ghost predicate Visits(t: Tag, u: Tag)
    ensures Visits(t, u) ==> Size(u) <= Size(t)
  {
    ElementSizes(t);
    u == t ||
    match t
    case CompoundTag(_, children) =>
      exists i :: 0 <= i < |children| && Visits(children[i], u)
    case ListTag(name, kind, elements) =>
      Descends(name, kind) && exists i :: 0 <= i < |elements| && Visits(elements[i], u)
    case _ => false
  }

  lemma ElementSizes(t: Tag)
    ensures t.CompoundTag? ==> forall i | 0 <= i < |t.children| :: Size(t.children[i]) < Size(t)
    ensures t.ListTag? ==> forall i | 0 <= i < |t.elements| :: Size(t.elements[i]) < Size(t)
  {
    if t.CompoundTag? {
      ElementsBelowSizeOf(t.children);
    } else if t.ListTag? {
      ElementsBelowSizeOf(t.elements);
    }
  }

  lemma {:induction false} ElementsBelowSizeOf(ts: seq<Tag>)
    ensures forall i | 0 <= i < |ts| :: Size(ts[i]) <= SizeOf(ts)
  {
    if ts != [] {
      ElementsBelowSizeOf(ts[1..]);
      assert forall i | 1 <= i < |ts| :: ts[i] == ts[1..][i - 1];
    }
  }

  // ---------------------------------------------------------------------

  lemma {:induction false} CandidatesOfAppend(a: seq<Tag>, b: seq<Tag>)
    ensures CandidatesOf(a + b) == CandidatesOf(a) + CandidatesOf(b)
  {
    if a == [] {
      assert a + b == b;
    } else {
      assert (a + b)[1..] == a[1..] + b;
      CandidatesOfAppend(a[1..], b);
    }
  }

  /** A tree's candidates are what its root emits followed by the candidates
      of what the root enqueues. */
  lemma CandidatesUnfold(t: Tag)
    ensures Candidates(t) == Emitted(t) + CandidatesOf(Enqueued(t))
  {
    assert CandidatesOf([]) == [];
  }

  lemma {:induction false} CandidatesOfElement(ts: seq<Tag>, i: nat)
    requires i < |ts|
    ensures multiset(Candidates(ts[i])) <= multiset(CandidatesOf(ts))
  {
    if i > 0 {
      CandidatesOfElement(ts[1..], i - 1);
    }
  }

  /** Every tag the scan pops contributes everything it emits: in particular
      every String tag reachable through compounds and descended lists is
      handed to the text scanner. */
  lemma {:induction false} VisitedEmissionsIncluded(t: Tag, u: Tag)
    requires Visits(t, u)
    ensures multiset(Emitted(u)) <= multiset(Candidates(t))
  {
    CandidatesUnfold(t);
    if u != t {
      match t
      case CompoundTag(_, children) =>
        var i :| 0 <= i < |children| && Visits(children[i], u);
        VisitedEmissionsIncluded(children[i], u);
        CandidatesOfElement(children, i);
      case ListTag(name, kind, elements) =>
        var i :| 0 <= i < |elements| && Visits(elements[i], u);
        VisitedEmissionsIncluded(elements[i], u);
        CandidatesOfElement(elements, i);
    }
  }

  /** Conversely, every candidate is emitted by some tag the scan pops. */
  lemma {:induction false} CandidatesComeFromVisits(t: Tag, c: string)
    requires c in Candidates(t)
    ensures exists u :: Visits(t, u) && c in Emitted(u)
  {
    CandidatesUnfold(t);
    if c !in Emitted(t) {
      var ts := Enqueued(t);
      var i := CandidateIndex(ts, c);
      CandidatesComeFromVisits(ts[i], c);
      var u :| Visits(ts[i], u) && c in Emitted(u);
      assert Visits(t, u);
    }
  }

  lemma {:induction false} CandidateIndex(ts: seq<Tag>, c: string) returns (i: nat)
    requires c in CandidatesOf(ts)
    ensures i < |ts| && c in Candidates(ts[i])
  {
    if c in Candidates(ts[0]) {
      i := 0;
    } else {
      var j := CandidateIndex(ts[1..], c);
      i := j + 1;
    }
  }

  /** One turn of the worklist loop keeps the candidates still owed the same
      and shrinks the worklist. */
  lemma WorklistStep(root: Tag, emitted: seq<string>, tag: Tag, rest: seq<Tag>)
    requires multiset(emitted) + multiset(CandidatesOf([tag] + rest)) == multiset(Candidates(root))
    ensures multiset(emitted + Emitted(tag)) + multiset(CandidatesOf(rest + Enqueued(tag)))
            == multiset(Candidates(root))
    ensures SizeOf(rest + Enqueued(tag)) < SizeOf([tag] + rest)
  {
    PopFront(tag, rest);
    CandidatesUnfold(tag);
    CandidatesOfAppend(rest, Enqueued(tag));
    SizeOfAppend(rest, Enqueued(tag));
  }

  lemma PopFront(tag: Tag, rest: seq<Tag>)
    ensures CandidatesOf([tag] + rest) == Candidates(tag) + CandidatesOf(rest)
    ensures SizeOf([tag] + rest) == Size(tag) + SizeOf(rest)
  {
    assert ([tag] + rest)[1..] == rest;
  }

  /** The list arm of the loop body (lines 298-319) in statement form: what
      a popped list hands to the consumer and what it appends to the
      worklist.  `Emitted` and `Enqueued` say the same as expressions, and
      the ensures ties the two. */
  method ProcessList(name: string, kind: Kind, elements: seq<Tag>) returns (found: seq<string>, more: seq<Tag>)
    ensures found == Emitted(ListTag(name, kind, elements))
    ensures more == Enqueued(ListTag(name, kind, elements))
  {
    found, more := [], [];
    if !CanHoldProfile(kind) {
      // this list cannot store player profiles
    } else if name == "textures" {
      if |elements| != 0 && elements[0].CompoundTag? {
        var value := Get(elements[0].children, "Value");
        if value.Some? && value.value.StringTag? {
          found := [value.value.value];
        }
      }
    } else if name == "properties" {
      if |elements| != 0 && elements[0].CompoundTag? {
        var nameTag := Get(elements[0].children, "name");
        var valueTag := Get(elements[0].children, "value");
        if nameTag.Some? && nameTag.value.StringTag? && valueTag.Some? && valueTag.value.StringTag? {
          if nameTag.value.value == "textures" {
            found := [valueTag.value.value];
          }
        }
      }
    } else {
      more := elements;
    }
  }

  /** The loop body for one popped tag (lines 295-321) in statement form;
      its ensures ties it to `Emitted` and `Enqueued`. */
  method ProcessPopped(tag: Tag) returns (found: seq<string>, more: seq<Tag>)
    ensures found == Emitted(tag)
    ensures more == Enqueued(tag)
  {
    found, more := [], [];
    match tag {
      case CompoundTag(_, children) =>
        more := children;
      case ListTag(name, kind, elements) =>
        found, more := ProcessList(name, kind, elements);
      case StringTag(_, value) =>
        found := TextScanner.ProcessString(value);
      case ValueTag(_, _) =>
    }
  }

  /** `processTag`: the worklist loop.  It terminates because every turn
      removes one tag and adds only that tag's children, and it emits the
      specification's candidates (the consumer does not depend on their
      order). */
  method ProcessTag(root: Tag) returns (emitted: seq<string>)
    ensures multiset(emitted) == multiset(Candidates(root))
  {
    var tags := [root];
    emitted := [];
    assert CandidatesOf(tags) == Candidates(root) + CandidatesOf([]);
    while tags != []
      invariant multiset(emitted) + multiset(CandidatesOf(tags)) == multiset(Candidates(root))
      decreases SizeOf(tags)
    {
      var tag := tags[0];
      assert tags == [tag] + tags[1..];
      WorklistStep(root, emitted, tag, tags[1..]);
      var found, more := ProcessPopped(tag);
      emitted := emitted + found;
      tags := tags[1..] + more;
    }
  }

  // ---------------------------------------------------------------------
  // The two profile-list rules and the inert lists.

  /** A list whose element kind is not String, List or Compound contributes
      nothing, whatever its name and contents, and nothing inside it is
      visited. */
  lemma InertListContributesNothing(name: string, kind: Kind, elements: seq<Tag>, u: Tag)
    requires !CanHoldProfile(kind)
    ensures Candidates(ListTag(name, kind, elements)) == []
    ensures Visits(ListTag(name, kind, elements), u) ==> u == ListTag(name, kind, elements)
  {
  }

  /** A `textures` list emits the first element's String "Value" and nothing
      else: its other elements are neither emitted nor visited. */
  lemma TexturesListRule(kind: Kind, elements: seq<Tag>, first: seq<Tag>, value: string, u: Tag)
    requires CanHoldProfile(kind)
    requires |elements| != 0 && elements[0] == CompoundTag("", first)
    requires Get(first, "Value") == Some(StringTag("Value", value))
    ensures Candidates(ListTag("textures", kind, elements)) == [value]
    ensures Visits(ListTag("textures", kind, elements), u) ==> u == ListTag("textures", kind, elements)
  {
  }

  /** A `properties` list emits the first element's String "value" exactly
      when that element's String "name" is "textures"; it is never descended
      into. */
  lemma PropertiesListRule(kind: Kind, elements: seq<Tag>, first: seq<Tag>, name: string, value: string, u: Tag)
    requires CanHoldProfile(kind)
    requires |elements| != 0 && elements[0] == CompoundTag("", first)
    requires Get(first, "name") == Some(StringTag("name", name))
    requires Get(first, "value") == Some(StringTag("value", value))
    ensures Candidates(ListTag("properties", kind, elements)) == (if name == "textures" then [value] else [])
    ensures Visits(ListTag("properties", kind, elements), u) ==> u == ListTag("properties", kind, elements)
  {
  }

  /** Legacy head: a compound holding a `textures` list whose first element
      has "Value" = "ABC123==" yields exactly that string; the Value string
      itself is not passed to the text scanner. */
  lemma LegacyHeadExample()
    ensures Candidates(CompoundTag("", [
              ListTag("textures", Compound, [CompoundTag("", [StringTag("Value", "ABC123==")])])]))
            == ["ABC123=="]
  {
    var inner := [StringTag("Value", "ABC123==")];
    assert Get(inner, "Value") == Some(StringTag("Value", "ABC123=="));
    var list := ListTag("textures", Compound, [CompoundTag("", inner)]);
    assert Candidates(list) == ["ABC123=="];
    assert CandidatesOf([list]) == Candidates(list) + CandidatesOf([]);
  }

  /** Item-component head: "name" = "textures" yields the value; any other
      name yields nothing for that entry. */
  lemma PropertiesExample(other: string)
    requires other != "textures"
    ensures Candidates(ListTag("properties", Compound, [CompoundTag("", [
              StringTag("name", "textures"), StringTag("value", "XYZ==")])])) == ["XYZ=="]
    ensures Candidates(ListTag("properties", Compound, [CompoundTag("", [
              StringTag("name", other), StringTag("value", "XYZ==")])])) == []
  {
    var good := [StringTag("name", "textures"), StringTag("value", "XYZ==")];
    assert Get(good, "name") == Some(StringTag("name", "textures"));
    assert Get(good, "value") == Some(StringTag("value", "XYZ=="));
    var bad := [StringTag("name", other), StringTag("value", "XYZ==")];
    assert Get(bad, "name") == Some(StringTag("name", other));
    assert Get(bad, "value") == Some(StringTag("value", "XYZ=="));
  }
}
