/**
 Measuring and classifying a request payload. The size is computed with an explicit stack and
 equals the structural size; the untrusted text handed to the input guard is exactly the
 strings held as values, each with the path that leads to it.
 */
module Classification {
  import opened Wrappers

  /** A decoded JSON-like value. `Scalar` carries the printed form of a number or boolean. */
  datatype Payload =
    | Text(text: string)
    | Missing
    | Scalar(printed: string)
    | Dict(entries: seq<Entry>)
    | Items(items: seq<Payload>)

  datatype Entry = Entry(key: Payload, value: Payload)

  // ---- size

  /** Characters in the payload: strings, dictionary keys included, and printed scalars. */
  function Size(p: Payload): nat {
    match p
    case Text(s) => |s|
    case Missing => 0
    case Scalar(s) => |s|
    case Dict(entries) => EntriesSize(entries)
    case Items(items) => TotalSize(items)
  }

  function EntriesSize(entries: seq<Entry>): nat {
    if entries == [] then 0 else EntrySize(entries[0]) + EntriesSize(entries[1..])
  }

  function EntrySize(e: Entry): nat {
    Size(e.key) + Size(e.value)
  }

  function TotalSize(items: seq<Payload>): nat {
    if items == [] then 0 else Size(items[0]) + TotalSize(items[1..])
  }

  function Nodes(p: Payload): nat {
    match p
    case Dict(entries) => 1 + EntriesNodes(entries)
    case Items(items) => 1 + TotalNodes(items)
    case _ => 1
  }

  function EntriesNodes(entries: seq<Entry>): nat {
    if entries == [] then 0 else EntryNodes(entries[0]) + EntriesNodes(entries[1..])
  }

  function EntryNodes(e: Entry): nat {
    Nodes(e.key) + Nodes(e.value)
  }

  function TotalNodes(items: seq<Payload>): nat {
    if items == [] then 0 else Nodes(items[0]) + TotalNodes(items[1..])
  }

  function Keys(entries: seq<Entry>): seq<Payload> {
    if entries == [] then [] else [entries[0].key] + Keys(entries[1..])
  }

  function Values(entries: seq<Entry>): seq<Payload> {
    if entries == [] then [] else [entries[0].value] + Values(entries[1..])
  }

  lemma {:induction false} TotalsConcat(a: seq<Payload>, b: seq<Payload>)
    ensures TotalSize(a + b) == TotalSize(a) + TotalSize(b)
    ensures TotalNodes(a + b) == TotalNodes(a) + TotalNodes(b)
  {
    if a == [] {
      assert a + b == b;
    } else {
      TotalsConcat(a[1..], b);
      assert a + b == [a[0]] + (a[1..] + b);
    }
  }

  lemma {:induction false} KeysAndValuesTotal(entries: seq<Entry>)
    ensures TotalSize(Keys(entries)) + TotalSize(Values(entries)) == EntriesSize(entries)
    ensures TotalNodes(Keys(entries)) + TotalNodes(Values(entries)) == EntriesNodes(entries)
  {
    if entries != [] {
      KeysAndValuesTotal(entries[1..]);
      assert Keys(entries)[1..] == Keys(entries[1..]) && Values(entries)[1..] == Values(entries[1..]);
    }
  }

  /** The worklist pops from its end and pushes the parts of what it popped; it terminates with the structural size. */
  method PayloadSize(payload: Payload) returns (total: nat)
    ensures total == Size(payload)
  {
    total := 0;
    var stack := [payload];
    assert TotalSize(stack) == Size(payload);
    while stack != []
      invariant total + TotalSize(stack) == Size(payload)
      decreases TotalNodes(stack)
    {
      var item := stack[|stack| - 1];
      var below := stack[..|stack| - 1];
      TotalsConcat(below, [item]);
      assert stack == below + [item];
      stack := below;
      match item {
        case Text(s) => total := total + |s|;
        case Dict(entries) =>
          KeysAndValuesTotal(entries);
          TotalsConcat(stack, Keys(entries));
          TotalsConcat(stack + Keys(entries), Values(entries));
          stack := stack + Keys(entries) + Values(entries);
        case Items(items) =>
          TotalsConcat(stack, items);
          stack := stack + items;
        case Missing =>
        case Scalar(s) => total := total + |s|;
      }
    }
  }

  // ---- untrusted text

  datatype PathStep = Field(key: Payload) | Index(i: nat)

  datatype Content = Content(text: string, path: seq<PathStep>)

  /** The strings held as values, left to right, each with its path. Dictionary keys are not collected. */
  function Leaves(p: Payload, path: seq<PathStep>): seq<Content>
    decreases p, 0
  {
    match p
    case Text(s) => [Content(s, path)]
    case Dict(entries) => EntryLeaves(entries, path)
    case Items(items) => ItemLeaves(items, path, 0)
    case _ => []
  }

  function EntryLeaves(entries: seq<Entry>, path: seq<PathStep>): seq<Content>
    decreases entries
  {
    if entries == [] then [] else EntryLeaf(entries[0], path) + EntryLeaves(entries[1..], path)
  }

  function EntryLeaf(e: Entry, path: seq<PathStep>): seq<Content>
    decreases e
  {
    Leaves(e.value, path + [Field(e.key)])
  }

  function ItemLeaves(items: seq<Payload>, path: seq<PathStep>, from: nat): seq<Content>
    decreases items
  {
    if items == [] then []
    else Leaves(items[0], path + [Index(from)]) + ItemLeaves(items[1..], path, from + 1)
  }

  lemma {:induction false} EntryLeavesStep(entries: seq<Entry>, path: seq<PathStep>, n: nat)
    requires n < |entries|
    ensures EntryLeaves(entries[..n + 1], path)
         == EntryLeaves(entries[..n], path) + Leaves(entries[n].value, path + [Field(entries[n].key)])
  {
    if n == 0 {
      assert entries[..1] == [entries[0]];
    } else {
      EntryLeavesStep(entries[1..], path, n - 1);
      assert entries[..n + 1][1..] == entries[1..][..n] && entries[..n][1..] == entries[1..][..n - 1];
    }
  }

  lemma {:induction false} ItemLeavesStep(items: seq<Payload>, path: seq<PathStep>, from: nat, n: nat)
    requires n < |items|
    ensures ItemLeaves(items[..n + 1], path, from)
         == ItemLeaves(items[..n], path, from) + Leaves(items[n], path + [Index(from + n)])
  {
    if n == 0 {
      assert items[..1] == [items[0]];
    } else {
      ItemLeavesStep(items[1..], path, from + 1, n - 1);
      assert items[..n + 1][1..] == items[1..][..n] && items[..n][1..] == items[1..][..n - 1];
    }
  }

  // ---- the labels the source writes

  /** What is handed to the guards: a text and where it came from. */
  datatype Labelled = Labelled(text: string, source: string)

  function Digit(d: nat): char
    requires d < 10
  {
    "0123456789"[d]
  }

  function Decimal(n: nat): string {
    if n < 10 then [Digit(n)] else Decimal(n / 10) + [Digit(n % 10)]
  }

  /** A key as it prints inside a path; dictionaries and lists are never keys. */
  function Printed(key: Payload): string {
    match key
    case Text(s) => s
    case Scalar(s) => s
    case Missing => "None"
    case _ => ""
  }

  function RenderStep(path: string, step: PathStep): string {
    match step
    case Field(key) => path + "." + Printed(key)
    case Index(i) => path + "[" + Decimal(i) + "]"
  }

  function Render(root: string, steps: seq<PathStep>): string {
    if steps == [] then root else RenderStep(Render(root, steps[..|steps| - 1]), steps[|steps| - 1])
  }

  function Label(root: string, found: seq<Content>): seq<Labelled> {
    seq(|found|, i requires 0 <= i < |found| => Labelled(found[i].text, Render(root, found[i].path)))
  }

  lemma RenderSnoc(root: string, steps: seq<PathStep>, step: PathStep)
    ensures Render(root, steps + [step]) == RenderStep(Render(root, steps), step)
  {
    assert (steps + [step])[..|steps|] == steps;
  }

  lemma EntryLabelsStep(root: string, entries: seq<Entry>, steps: seq<PathStep>, n: nat)
    requires n < |entries|
    ensures Label(root, EntryLeaves(entries[..n + 1], steps))
         == Label(root, EntryLeaves(entries[..n], steps)) + Label(root, Leaves(entries[n].value, steps + [Field(entries[n].key)]))
  {
    EntryLeavesStep(entries, steps, n);
  }

  lemma ItemLabelsStep(root: string, items: seq<Payload>, steps: seq<PathStep>, n: nat)
    requires n < |items|
    ensures Label(root, ItemLeaves(items[..n + 1], steps, 0))
         == Label(root, ItemLeaves(items[..n], steps, 0)) + Label(root, Leaves(items[n], steps + [Index(n)]))
  {
    ItemLeavesStep(items, steps, 0, n);
  }

  /** The loops around the recursion gather every string value in order, under the path rendered on the way down. */
  method UntrustedStrings(payload: Payload, path: string, ghost root: string, ghost steps: seq<PathStep>) returns (found: seq<Labelled>)
    requires path == Render(root, steps)
    ensures found == Label(root, Leaves(payload, steps))
    decreases payload
  {
    found := [];
    match payload {
      case Text(s) => found := [Labelled(s, path)];
      case Dict(entries) =>
        for n := 0 to |entries|
          invariant found == Label(root, EntryLeaves(entries[..n], steps))
        {
          EntryLabelsStep(root, entries, steps, n);
          RenderSnoc(root, steps, Field(entries[n].key));
          var inner := UntrustedStrings(entries[n].value, path + "." + Printed(entries[n].key), root, steps + [Field(entries[n].key)]);
          found := found + inner;
        }
        assert entries[..|entries|] == entries;
      case Items(items) =>
        for n := 0 to |items|
          invariant found == Label(root, ItemLeaves(items[..n], steps, 0))
        {
          ItemLabelsStep(root, items, steps, n);
          RenderSnoc(root, steps, Index(n));
          var inner := UntrustedStrings(items[n], path + "[" + Decimal(n) + "]", root, steps + [Index(n)]);
          found := found + inner;
        }
        assert items[..|items|] == items;
      case Missing =>
      case Scalar(_) =>
    }
  }

  function TextLength(found: seq<Content>): nat {
    if found == [] then 0 else |found[0].text| + TextLength(found[1..])
  }

  lemma {:induction false} TextLengthConcat(a: seq<Content>, b: seq<Content>)
    ensures TextLength(a + b) == TextLength(a) + TextLength(b)
  {
    if a == [] {
      assert a + b == b;
    } else {
      TextLengthConcat(a[1..], b);
      assert a + b == [a[0]] + (a[1..] + b);
    }
  }

  /** The text shown to the guard is never longer than the measured payload. */
  lemma {:induction false} LeavesFitInSize(p: Payload, path: seq<PathStep>)
    ensures TextLength(Leaves(p, path)) <= Size(p)
    decreases p, 0
  {
    match p
    case Text(s) =>
    case Dict(entries) => EntryLeavesFit(entries, path);
    case Items(items) => ItemLeavesFit(items, path, 0);
    case _ =>
  }

  lemma {:induction false} EntryLeavesFit(entries: seq<Entry>, path: seq<PathStep>)
    ensures TextLength(EntryLeaves(entries, path)) <= EntriesSize(entries)
    decreases entries
  {
    if entries != [] {
      EntryLeafFits(entries[0], path);
      EntryLeavesFit(entries[1..], path);
      TextLengthConcat(EntryLeaf(entries[0], path), EntryLeaves(entries[1..], path));
    }
  }

  lemma {:induction false} EntryLeafFits(e: Entry, path: seq<PathStep>)
    ensures TextLength(EntryLeaf(e, path)) <= EntrySize(e)
    decreases e
  {
    LeavesFitInSize(e.value, path + [Field(e.key)]);
  }

  lemma {:induction false} ItemLeavesFit(items: seq<Payload>, path: seq<PathStep>, from: nat)
    ensures TextLength(ItemLeaves(items, path, from)) <= TotalSize(items)
    decreases items
  {
    if items != [] {
      var here := path + [Index(from)];
      LeavesFitInSize(items[0], here);
      ItemLeavesFit(items[1..], path, from + 1);
      TextLengthConcat(Leaves(items[0], here), ItemLeaves(items[1..], path, from + 1));
    }
  }

  // ---- following a path

  ghost predicate LeadsTo(p: Payload, steps: seq<PathStep>, text: string) {
    if steps == [] then p == Text(text)
    else match (p, steps[0]) {
      case (Dict(entries), Field(k)) => exists e :: e in entries && e.key == k && LeadsTo(e.value, steps[1..], text)
      case (Items(items), Index(i)) => i < |items| && LeadsTo(items[i], steps[1..], text)
      case _ => false
    }
  }

  /** The collected contents are exactly the string values of the payload, each labelled with its own path. */
  lemma {:induction false} LeavesAreThePayloadsStrings(p: Payload, path: seq<PathStep>, text: string, steps: seq<PathStep>)
    ensures Content(text, path + steps) in Leaves(p, path) <==> LeadsTo(p, steps, text)
    decreases p, 0
  {
    match p
    case Text(s) =>
      assert path + steps == path <==> steps == [];
    case Dict(entries) => EntryLeavesAreStrings(entries, path, text, steps);
    case Items(items) => ItemLeavesAreStrings(items, path, 0, text, steps);
    case _ =>
  }

  /** A text is reported under a label exactly when some path to it through the payload renders as that label. */
  lemma LabelledExactlyWhen(p: Payload, root: string, text: string, source: string)
    ensures Labelled(text, source) in Label(root, Leaves(p, []))
       <==> exists steps :: LeadsTo(p, steps, text) && Render(root, steps) == source
  {
    var leaves := Leaves(p, []);
    if Labelled(text, source) in Label(root, leaves) {
      var i :| 0 <= i < |leaves| && Label(root, leaves)[i] == Labelled(text, source);
      assert leaves[i] in leaves && [] + leaves[i].path == leaves[i].path;
      LeavesAreThePayloadsStrings(p, [], text, leaves[i].path);
    }
    if steps :| LeadsTo(p, steps, text) && Render(root, steps) == source {
      LeavesAreThePayloadsStrings(p, [], text, steps);
      assert [] + steps == steps;
      var i :| 0 <= i < |leaves| && leaves[i] == Content(text, steps);
      assert Label(root, leaves)[i] == Labelled(text, source);
    }
  }

  lemma SampleLabels(root: string)
    ensures Render(root, [Field(Text("a.b"))]) == root + ".a.b"
    ensures Render(root, [Field(Text("a")), Field(Text("b"))]) == root + ".a.b"
  {
    var dotted, outer := Field(Text("a.b")), Field(Text("a"));
    RenderSnoc(root, [], dotted);
    RenderSnoc(root, [], outer);
    RenderSnoc(root, [outer], Field(Text("b")));
    assert [] + [dotted] == [dotted] && [] + [outer] == [outer] && [outer] + [Field(Text("b"))] == [outer, Field(Text("b"))];
    assert root + "." + "a.b" == root + ".a.b";
    assert root + "." + "a" + "." + "b" == root + ".a.b";
  }

  /** Labels are not injective: a dotted key and a nested one can report two texts under one label. */
  lemma LabelsCollide(root: string)
    ensures var p := Dict([Entry(Text("a.b"), Text("first")), Entry(Text("a"), Dict([Entry(Text("b"), Text("second"))]))]);
            Label(root, Leaves(p, [])) == [Labelled("first", root + ".a.b"), Labelled("second", root + ".a.b")]
  {
    var inner := [Entry(Text("b"), Text("second"))];
    var entries := [Entry(Text("a.b"), Text("first")), Entry(Text("a"), Dict(inner))];
    var dotted, outer, nested := [Field(Text("a.b"))], [Field(Text("a"))], [Field(Text("a")), Field(Text("b"))];
    assert [] + dotted == dotted && [] + outer == outer && outer + [Field(Text("b"))] == nested;
    SampleLabels(root);
    assert EntryLeaves(inner, outer) == [Content("second", nested)];
    assert EntryLeaves(entries[1..], []) == [Content("second", nested)];
    assert EntryLeaf(entries[0], []) == [Content("first", dotted)];
    assert EntryLeaves(entries, []) == [Content("first", dotted)] + [Content("second", nested)];
    var leaves := [Content("first", dotted), Content("second", nested)];
    assert Leaves(Dict(entries), []) == leaves;
    assert Label(root, leaves) == [Labelled("first", root + ".a.b"), Labelled("second", root + ".a.b")];
  }

  /** Every leaf found below `base` carries a path that starts with `base`. */
  lemma {:induction false} LeavesExtendPath(p: Payload, base: seq<PathStep>, c: Content)
    requires c in Leaves(p, base)
    ensures base <= c.path
    decreases p, 0
  {
    match p
    case Text(s) =>
    case Dict(entries) => EntryLeavesExtend(entries, base, c);
    case Items(items) => ItemLeavesExtend(items, base, 0, c);
  }

  lemma {:induction false} EntryLeavesExtend(entries: seq<Entry>, base: seq<PathStep>, c: Content)
    requires c in EntryLeaves(entries, base)
    ensures base < c.path
    decreases entries
  {
    if c in EntryLeaf(entries[0], base) {
      EntryLeafExtends(entries[0], base, c);
    } else {
      EntryLeavesExtend(entries[1..], base, c);
    }
  }

  lemma {:induction false} EntryLeafExtends(e: Entry, base: seq<PathStep>, c: Content)
    requires c in EntryLeaf(e, base)
    ensures base < c.path && c.path[|base|] == Field(e.key)
    decreases e
  {
    var here := base + [Field(e.key)];
    LeavesExtendPath(e.value, here, c);
    assert here <= c.path && c.path[|base|] == here[|base|];
  }

  lemma {:induction false} ItemLeavesExtend(items: seq<Payload>, base: seq<PathStep>, from: nat, c: Content)
    requires c in ItemLeaves(items, base, from)
    ensures base < c.path && c.path[|base|].Index? && c.path[|base|].i >= from
    decreases items
  {
    var here := base + [Index(from)];
    if c in Leaves(items[0], here) {
      LeavesExtendPath(items[0], here, c);
      assert here <= c.path && c.path[|base|] == here[|base|];
    } else {
      ItemLeavesExtend(items[1..], base, from + 1, c);
    }
  }

  /** A path that leaves `path` by another step than `here` does is not that of a leaf below `here`. */
  lemma NotBelow(p: Payload, here: seq<PathStep>, c: Content, path: seq<PathStep>, steps: seq<PathStep>)
    requires |here| == |path| + 1 && here[..|path|] == path
    requires c.path == path + steps
    requires steps == [] || steps[0] != here[|path|]
    ensures c !in Leaves(p, here)
  {
    if c in Leaves(p, here) {
      LeavesExtendPath(p, here, c);
    }
  }

  lemma {:induction false} EntryLeavesAreStrings(entries: seq<Entry>, path: seq<PathStep>, text: string, steps: seq<PathStep>)
    ensures Content(text, path + steps) in EntryLeaves(entries, path)
       <==> steps != [] && steps[0].Field?
            && exists e :: e in entries && e.key == steps[0].key && LeadsTo(e.value, steps[1..], text)
    decreases entries
  {
    if entries != [] {
      EntryLeafIsString(entries[0], path, text, steps);
      EntryLeavesAreStrings(entries[1..], path, text, steps);
      assert forall e :: e in entries <==> e == entries[0] || e in entries[1..];
    }
  }

  lemma {:induction false} EntryLeafIsString(e: Entry, path: seq<PathStep>, text: string, steps: seq<PathStep>)
    ensures Content(text, path + steps) in EntryLeaf(e, path)
       <==> steps != [] && steps[0] == Field(e.key) && LeadsTo(e.value, steps[1..], text)
    decreases e
  {
    var here := path + [Field(e.key)];
    if steps != [] && steps[0] == Field(e.key) {
      LeavesAreThePayloadsStrings(e.value, here, text, steps[1..]);
      assert path + steps == here + steps[1..];
    } else {
      NotBelow(e.value, here, Content(text, path + steps), path, steps);
    }
  }

  lemma {:induction false} ItemLeavesAreStrings(items: seq<Payload>, path: seq<PathStep>, from: nat, text: string, steps: seq<PathStep>)
    ensures Content(text, path + steps) in ItemLeaves(items, path, from)
       <==> steps != [] && steps[0].Index? && from <= steps[0].i < from + |items|
            && LeadsTo(items[steps[0].i - from], steps[1..], text)
    decreases items
  {
    var c := Content(text, path + steps);
    if items != [] {
      var here, rest := path + [Index(from)], items[1..];
      ItemLeavesAreStrings(rest, path, from + 1, text, steps);
      assert c in ItemLeaves(items, path, from) <==> c in Leaves(items[0], here) || c in ItemLeaves(rest, path, from + 1);
      if steps != [] && steps[0] == Index(from) {
        LeavesAreThePayloadsStrings(items[0], here, text, steps[1..]);
        assert path + steps == here + steps[1..];
      } else {
        NotBelow(items[0], here, c, path, steps);
      }
    }
  }

  // ---- complexity

  datatype Complexity = Simple | Medium | Complex

  datatype Thresholds = Thresholds(mediumChars: int, complexChars: int, complexImageCount: int, highQuality: real)

  const DEFAULT_THRESHOLDS := Thresholds(2000, 12000, 2, 0.9)

  datatype Request = Request(payload: Payload, imageCount: int, qualityRequirement: Option<real>)

  function Rank(c: Complexity): nat {
    match c
    case Simple => 0
    case Medium => 1
    case Complex => 2
  }

  function Higher(a: Complexity, b: Complexity): Complexity {
    if Rank(a) >= Rank(b) then a else b
  }

  // What each signal calls for on its own.

  function SizeClass(size: nat, t: Thresholds): Complexity {
    if size >= t.complexChars then Complex else if size >= t.mediumChars then Medium else Simple
  }

  /** One image is MEDIUM work; several are COMPLEX from the threshold on and nothing special below it. */
  function ImageClass(count: int, t: Thresholds): Complexity {
    if count >= t.complexImageCount then Complex else if count == 1 then Medium else Simple
  }

  function QualityClass(quality: Option<real>, t: Thresholds): Complexity {
    if quality.Some? && quality.value >= t.highQuality then Complex else Simple
  }

  /** The highest class any one signal calls for. */
  function Classify(r: Request, t: Thresholds): Complexity {
    Higher(Higher(SizeClass(Size(r.payload), t), ImageClass(r.imageCount, t)), QualityClass(r.qualityRequirement, t))
  }

  /** Whatever the order of its branches, no signal masks another: the class is the highest that any of them calls for. */
  method ClassifyComplexity(r: Request, t: Thresholds) returns (c: Complexity)
    ensures c == Classify(r, t)
    ensures c == Complex <==>
      || r.imageCount >= t.complexImageCount || Size(r.payload) >= t.complexChars
      || (r.qualityRequirement.Some? && r.qualityRequirement.value >= t.highQuality)
    ensures c == Medium <==> c != Complex && (r.imageCount == 1 || Size(r.payload) >= t.mediumChars)
  {
    var size := PayloadSize(r.payload);
    if r.imageCount >= t.complexImageCount {
      return Complex;
    }
    if size >= t.complexChars {
      return Complex;
    }
    if r.qualityRequirement.Some? && r.qualityRequirement.value >= t.highQuality {
      return Complex;
    }
    if size >= t.mediumChars || r.imageCount == 1 {
      return Medium;
    }
    return Simple;
  }

  predicate QualityAtMost(a: Option<real>, b: Option<real>) {
    a.None? || (b.Some? && a.value <= b.value)
  }

  /** At least as much of everything the classifier looks at. */
  predicate AtMost(a: Request, b: Request) {
    && Size(a.payload) <= Size(b.payload)
    && a.imageCount <= b.imageCount
    && QualityAtMost(a.qualityRequirement, b.qualityRequirement)
  }

  /**
   Raising size, images and quality together lowers the class exactly when a single image becomes
   several below the image threshold and neither size nor quality calls for more than SIMPLE.
   */
  lemma ClassDropsExactlyWhen(a: Request, b: Request, t: Thresholds)
    requires AtMost(a, b)
    ensures Rank(Classify(a, t)) > Rank(Classify(b, t))
       <==> && a.imageCount == 1 && 1 < b.imageCount < t.complexImageCount
            && SizeClass(Size(b.payload), t) == Simple && QualityClass(b.qualityRequirement, t) == Simple
  {
  }

  /** More images alone lower the class exactly from one to several below the threshold, on a small request with a low bar. */
  lemma MoreImagesLowerExactlyWhen(r: Request, more: int, t: Thresholds)
    requires r.imageCount <= more
    ensures Rank(Classify(r, t)) > Rank(Classify(r.(imageCount := more), t))
       <==> && r.imageCount == 1 && 1 < more < t.complexImageCount
            && Size(r.payload) < t.mediumChars && Size(r.payload) < t.complexChars
            && (r.qualityRequirement.Some? ==> r.qualityRequirement.value < t.highQuality)
  {
    ClassDropsExactlyWhen(r, r.(imageCount := more), t);
  }

  /** More characters or a higher quality bar never lowers the class, nor do more images from a count other than one. */
  lemma ClassNeverDrops(a: Request, b: Request, t: Thresholds)
    requires AtMost(a, b)
    requires a.imageCount == b.imageCount || a.imageCount != 1
    ensures Rank(Classify(a, t)) <= Rank(Classify(b, t))
  {
    ClassDropsExactlyWhen(a, b, t);
  }

  /** However a request grows, its class does not drop. */
  ghost predicate NeverLower(t: Thresholds) {
    forall a, b :: AtMost(a, b) ==> Rank(Classify(a, t)) <= Rank(Classify(b, t))
  }

  /**
   A configuration never lowers the class of a growing request exactly when its image threshold is
   at most 2, or a character threshold is already met by an empty payload.
   */
  lemma NeverLowerExactlyWhen(t: Thresholds)
    ensures NeverLower(t) <==> t.complexImageCount <= 2 || t.mediumChars <= 0 || t.complexChars <= 0
  {
    if t.complexImageCount <= 2 || t.mediumChars <= 0 || t.complexChars <= 0 {
      forall a, b | AtMost(a, b) ensures Rank(Classify(a, t)) <= Rank(Classify(b, t)) {
        ClassDropsExactlyWhen(a, b, t);
      }
    } else {
      var one := Request(Dict([]), 1, None);
      MoreImagesLowerExactlyWhen(one, 2, t);
      assert AtMost(one, one.(imageCount := 2));
    }
  }

  lemma DefaultThresholdsNeverLower()
    ensures NeverLower(DEFAULT_THRESHOLDS)
  {
    NeverLowerExactlyWhen(DEFAULT_THRESHOLDS);
  }

  /** Under an image threshold of three, an empty request with one image is MEDIUM and with two it is SIMPLE. */
  lemma SecondImageLowers()
    ensures var t, r := DEFAULT_THRESHOLDS.(complexImageCount := 3), Request(Dict([]), 1, None);
            Classify(r, t) == Medium && Classify(r.(imageCount := 2), t) == Simple
  {
  }

  // ---- sizes, leaves and classes, from the payload and the numbers

  /** The laws that fix the size of every payload: characters, keys included, and nothing for a missing value. */
  lemma SizeLaws(s: string, e: Entry, entries: seq<Entry>, item: Payload, items: seq<Payload>)
    ensures Size(Text(s)) == |s| && Size(Scalar(s)) == |s| && Size(Missing) == 0
    ensures Size(Dict([])) == 0 && Size(Dict([e] + entries)) == Size(e.key) + Size(e.value) + Size(Dict(entries))
    ensures Size(Items([])) == 0 && Size(Items([item] + items)) == Size(item) + Size(Items(items))
  {
    assert ([e] + entries)[1..] == entries && ([item] + items)[1..] == items;
    assert EntriesSize([e] + entries) == EntrySize(e) + EntriesSize(entries);
    assert TotalSize([item] + items) == Size(item) + TotalSize(items);
  }

  /** The laws that fix what is collected and in which order: strings only, values before the values after them. */
  lemma LeavesInOrder(s: string, e: Entry, entries: seq<Entry>, item: Payload, items: seq<Payload>, path: seq<PathStep>)
    ensures Leaves(Text(s), path) == [Content(s, path)] && Leaves(Scalar(s), path) == [] && Leaves(Missing, path) == []
    ensures Leaves(Dict([]), path) == []
    ensures Leaves(Dict([e] + entries), path) == Leaves(e.value, path + [Field(e.key)]) + Leaves(Dict(entries), path)
    ensures Leaves(Items([]), path) == []
    ensures Leaves(Items(items + [item]), path) == Leaves(Items(items), path) + Leaves(item, path + [Index(|items|)])
  {
    assert ([e] + entries)[1..] == entries;
    assert EntryLeaves([e] + entries, path) == EntryLeaf(e, path) + EntryLeaves(entries, path);
    ItemLeavesStep(items + [item], path, 0, |items|);
    assert (items + [item])[..|items| + 1] == items + [item] && (items + [item])[..|items|] == items;
  }

  /** Reading a decimal number. */
  function Read(s: string): nat {
    if s == [] then 0
    else
      var c := s[|s| - 1];
      10 * Read(s[..|s| - 1]) + if '0' <= c <= '9' then (c - '0') as nat else 0
  }

  /** An index prints as the decimal number that reads back as itself, without leading zeros. */
  lemma {:induction false} DecimalReadsBack(n: nat)
    ensures Read(Decimal(n)) == n
    ensures Decimal(n) != [] && (forall i :: 0 <= i < |Decimal(n)| ==> '0' <= Decimal(n)[i] <= '9')
    ensures Decimal(n)[0] == '0' ==> n == 0
  {
    if n < 10 {
      assert Read([]) == 0;
    } else {
      DecimalReadsBack(n / 10);
      var front, last := Decimal(n / 10), Digit(n % 10);
      assert (front + [last])[..|front + [last]| - 1] == front;
    }
  }

  /** COMPLEX from either of three numbers, SIMPLE only below all of them, and MEDIUM in between. */
  lemma ClassExactly(r: Request, t: Thresholds)
    ensures Classify(r, t) == Complex <==>
      || r.imageCount >= t.complexImageCount || Size(r.payload) >= t.complexChars
      || (r.qualityRequirement.Some? && r.qualityRequirement.value >= t.highQuality)
    ensures Classify(r, t) == Simple <==>
      && r.imageCount < t.complexImageCount && r.imageCount != 1
      && Size(r.payload) < t.complexChars && Size(r.payload) < t.mediumChars
      && (r.qualityRequirement.Some? ==> r.qualityRequirement.value < t.highQuality)
  {
  }

  /** With the default thresholds: two images, twelve thousand characters or a bar of 0.9; then one image or two thousand characters. */
  lemma DefaultClassExactly(r: Request)
    ensures var complex := r.imageCount >= 2 || Size(r.payload) >= 12000 || (r.qualityRequirement.Some? && r.qualityRequirement.value >= 0.9);
            && (Classify(r, DEFAULT_THRESHOLDS) == Complex <==> complex)
            && (Classify(r, DEFAULT_THRESHOLDS) == Medium <==> !complex && (r.imageCount == 1 || Size(r.payload) >= 2000))
  {
    ClassExactly(r, DEFAULT_THRESHOLDS);
  }
}
