/** The design reducer: every user action maps the current design to a new
    one. The React context around it is not modelled; the id the reducer
    draws from the clock for a new cutout or divider is a parameter. */
module DesignStore {
  import opened Types
  import opened Config
  import opened Text
  import opened Outline
  import Validation
  import Pricing

  // ---------------------------------------------------------------- actions

  /** A partial update: a present field overrides, an absent one keeps the old
      value (`{ ...old, ...updates }`). */
  function Pick<T>(update: Option<T>, current: T): (r: T)
    ensures update.Some? ==> r == update.value
    ensures update.None? ==> r == current
  {
    if update.Some? then update.value else current
  }

  /** `Partial<Dimensions>`: None leaves a field out, Some(v) supplies it
      (Some(None) supplies it as `undefined`). */
  datatype DimensionsPatch = DimensionsPatch(
    length: Option<Option<real>>,
    depth: Option<Option<real>>,
    lengthA: Option<Option<real>>,
    lengthB: Option<Option<real>>,
    lengthLeft: Option<Option<real>>,
    lengthRight: Option<Option<real>>,
    gapWidth: Option<Option<real>>)

  datatype CutoutPatch = CutoutPatch(
    id: Option<string>,
    name: Option<string>,
    kind: Option<CutoutType>,
    width: Option<real>,
    depth: Option<real>,
    position: Option<Point>,
    offsetX: Option<real>,
    offsetY: Option<real>,
    referenceX: Option<ReferenceX>,
    referenceY: Option<ReferenceY>)

  datatype DividerPatch = DividerPatch(
    id: Option<string>,
    kind: Option<DividerType>,
    name: Option<string>,
    width: Option<real>,
    segmentId: Option<string>,
    position: Option<real>,
    price: Option<real>)

  /** The actions of the reducer. The payload of an add action is an element
      whose `id` the reducer replaces. */
  datatype Action =
    | SetLayout(layout: Layout)
    | SetOrientation(orientation: Orientation)
    | SetDimensions(dimensions: DimensionsPatch)
    | SetStyle(style: Style)
    | SetSegmentStyle(segmentId: string, style: Style)
    | ResetSegmentStyles
    | AddCutout(cutout: Cutout)
    | UpdateCutout(id: string, cutoutUpdates: CutoutPatch)
    | RemoveCutout(id: string)
    | AddDivider(divider: Divider)
    | UpdateDivider(id: string, dividerUpdates: DividerPatch)
    | RemoveDivider(id: string)
    | ResetDesign
    | LoadDesign(design: Design)

  // ---------------------------------------------------------------- sequences

  /** `s.map(x => hit(x) ? f(x) : x)`. */
  function MapWhere<T>(s: seq<T>, hit: T -> bool, f: T -> T): (r: seq<T>)
    ensures |r| == |s|
    ensures forall i :: 0 <= i < |s| ==> r[i] == if hit(s[i]) then f(s[i]) else s[i]
  {
    if s == [] then [] else [if hit(s[0]) then f(s[0]) else s[0]] + MapWhere(s[1..], hit, f)
  }

  /** `s.filter(keep)`. */
  function Filter<T(!new)>(s: seq<T>, keep: T -> bool): (r: seq<T>)
    ensures |r| <= |s|
    ensures forall x :: x in r <==> x in s && keep(x)
  {
    if s == [] then [] else if keep(s[0]) then [s[0]] + Filter(s[1..], keep) else Filter(s[1..], keep)
  }

  /** Filtering keeps every element exactly when every element passes. */
  lemma {:induction false} FilterKeepsAll<T(!new)>(s: seq<T>, keep: T -> bool)
    ensures Filter(s, keep) == s <==> forall x :: x in s ==> keep(x)
  {
    if s != [] {
      FilterKeepsAll(s[1..], keep);
      assert forall x :: x in s <==> x == s[0] || x in s[1..];
      if !keep(s[0]) {
        assert |Filter(s, keep)| <= |s[1..]| < |s|;
      }
    }
  }

  lemma {:induction false} FilterAppend<T(!new)>(a: seq<T>, b: seq<T>, keep: T -> bool)
    ensures Filter(a + b, keep) == Filter(a, keep) + Filter(b, keep)
  {
    if a == [] {
      assert a + b == b;
    } else {
      assert (a + b)[0] == a[0];
      assert (a + b)[1..] == a[1..] + b;
      FilterAppend(a[1..], b, keep);
    }
  }

  /** No two elements share a key. */
  predicate UniqueBy<T>(s: seq<T>, key: T -> string) {
    forall i, j :: 0 <= i < j < |s| ==> key(s[i]) != key(s[j])
  }

  /** Filtering keeps the keys distinct. */
  lemma {:induction false} FilterKeepsUnique<T(!new)>(s: seq<T>, keep: T -> bool, key: T -> string)
    requires UniqueBy(s, key)
    ensures UniqueBy(Filter(s, keep), key)
  {
    if s != [] {
      var tail := s[1..];
      assert UniqueBy(tail, key) by {
        forall i, j | 0 <= i < j < |tail| ensures key(tail[i]) != key(tail[j]) {
          assert tail[i] == s[i + 1] && tail[j] == s[j + 1];
        }
      }
      FilterKeepsUnique(tail, keep, key);
      var rest := Filter(tail, keep);
      if keep(s[0]) {
        forall x | x in rest ensures key(x) != key(s[0]) {
          var j :| 0 <= j < |tail| && tail[j] == x;
          assert s[j + 1] == x;
        }
        var r := [s[0]] + rest;
        forall i, j | 0 <= i < j < |r| ensures key(r[i]) != key(r[j]) {
          if i == 0 {
            assert r[j] == rest[j - 1] && r[j] in rest;
          } else {
            assert r[i] == rest[i - 1] && r[j] == rest[j - 1];
          }
        }
      }
    }
  }

  /** Applying a key-preserving map keeps the keys distinct. */
  lemma MapWhereKeepsUnique<T>(s: seq<T>, hit: T -> bool, f: T -> T, key: T -> string)
    requires UniqueBy(s, key)
    requires forall x :: key(f(x)) == key(x)
    ensures UniqueBy(MapWhere(s, hit, f), key)
  {
    var r := MapWhere(s, hit, f);
    forall i, j | 0 <= i < j < |r| ensures key(r[i]) != key(r[j]) {
      assert key(r[i]) == key(s[i]) && key(r[j]) == key(s[j]);
    }
  }

  // ---------------------------------------------------------------- the reducer

  /** The defaults SET_LAYOUT fills in: `field || default` for the fields the
      new layout reads, every other field as it was. */
  function WithLayoutDefaults(layout: Layout, d: Dimensions): Dimensions {
    match layout
    case LShape =>
      d.(lengthA := Some(OrElse(d.lengthA, 200.0)), lengthB := Some(OrElse(d.lengthB, 150.0)), depth := Some(OrElse(d.depth, 60.0)))
    case UShape =>
      d.(lengthLeft := Some(OrElse(d.lengthLeft, 150.0)), lengthRight := Some(OrElse(d.lengthRight, 150.0)),
         gapWidth := Some(OrElse(d.gapWidth, 100.0)), depth := Some(OrElse(d.depth, 60.0)))
    case Straight =>
      d.(length := Some(OrElse(d.length, 300.0)), depth := Some(OrElse(d.depth, 60.0)))
  }

  function MergeDimensions(d: Dimensions, p: DimensionsPatch): Dimensions {
    Dimensions(Pick(p.length, d.length), Pick(p.depth, d.depth), Pick(p.lengthA, d.lengthA), Pick(p.lengthB, d.lengthB),
               Pick(p.lengthLeft, d.lengthLeft), Pick(p.lengthRight, d.lengthRight), Pick(p.gapWidth, d.gapWidth))
  }

  function MergeCutout(c: Cutout, p: CutoutPatch): Cutout {
    Cutout(Pick(p.id, c.id), Pick(p.name, c.name), Pick(p.kind, c.kind), Pick(p.width, c.width), Pick(p.depth, c.depth),
           Pick(p.position, c.position), Pick(p.offsetX, c.offsetX), Pick(p.offsetY, c.offsetY),
           Pick(p.referenceX, c.referenceX), Pick(p.referenceY, c.referenceY))
  }

  function MergeDivider(d: Divider, p: DividerPatch): Divider {
    Divider(Pick(p.id, d.id), Pick(p.kind, d.kind), Pick(p.name, d.name), Pick(p.width, d.width),
            Pick(p.segmentId, d.segmentId), Pick(p.position, d.position), Pick(p.price, d.price))
  }

  /** The name a new segment style gets. */
  function SegmentName(segmentId: string): string {
    if segmentId == "main" then "Główny" else Upper(segmentId)
  }

  predicate HasSegment(styles: seq<SegmentStyle>, segmentId: string) {
    exists s :: s in styles && s.segmentId == segmentId
  }

  /** SET_SEGMENT_STYLE on the list: replace the style of the entries of the
      segment if there are any, append a named entry otherwise. */
  function UpsertSegmentStyle(styles: seq<SegmentStyle>, segmentId: string, style: Style): seq<SegmentStyle> {
    if HasSegment(styles, segmentId) then
      MapWhere(styles, (s: SegmentStyle) => s.segmentId == segmentId, (s: SegmentStyle) => s.(style := style))
    else
      styles + [SegmentStyle(segmentId, SegmentName(segmentId), style)]
  }

  /** `design.dividers || []`. */
  function DividersOf(design: Design): seq<Divider> {
    if design.dividers.Some? then design.dividers.value else []
  }

  /** `defaultDesign`: a 300 x 60 straight top in the first catalogue material. */
  function DefaultDesign(): Design {
    Design(Straight, LeftL, Dimensions(Some(300.0), Some(60.0), None, None, None, None, None), MATERIALS[0], None, [], Some([]))
  }

  /** `designReducer`; `freshId` is the `Date.now().toString()` an add action
      gives its new element. Each part of the design changes only under the
      actions that are about it. */
  function Reduce(design: Design, action: Action, freshId: string): (r: Design)
    ensures !(action.SetLayout? || action.ResetDesign? || action.LoadDesign?) ==> r.layout == design.layout
    ensures !(action.SetLayout? || action.SetDimensions? || action.ResetDesign? || action.LoadDesign?) ==>
      r.dimensions == design.dimensions
    ensures !(action.SetOrientation? || action.ResetDesign? || action.LoadDesign?) ==> r.orientation == design.orientation
    ensures !(action.SetStyle? || action.ResetDesign? || action.LoadDesign?) ==> r.style == design.style
    ensures !(action.SetSegmentStyle? || action.ResetSegmentStyles? || action.ResetDesign? || action.LoadDesign?) ==>
      r.segmentStyles == design.segmentStyles
    ensures !(action.AddCutout? || action.UpdateCutout? || action.RemoveCutout? || action.ResetDesign? || action.LoadDesign?) ==>
      r.cutouts == design.cutouts
    ensures !(action.AddDivider? || action.UpdateDivider? || action.RemoveDivider? || action.ResetDesign? || action.LoadDesign?) ==>
      r.dividers == design.dividers
  {
    match action
    case SetLayout(layout) =>
      design.(layout := layout, dimensions := WithLayoutDefaults(layout, design.dimensions))
    case SetOrientation(orientation) => design.(orientation := orientation)
    case SetDimensions(patch) => design.(dimensions := MergeDimensions(design.dimensions, patch))
    case SetStyle(style) => design.(style := style)
    case SetSegmentStyle(segmentId, style) =>
      var current := if design.segmentStyles.Some? then design.segmentStyles.value else [];
      design.(segmentStyles := Some(UpsertSegmentStyle(current, segmentId, style)))
    case ResetSegmentStyles => design.(segmentStyles := None)
    case AddCutout(c) => design.(cutouts := design.cutouts + [c.(id := freshId)])
    case UpdateCutout(id, updates) =>
      design.(cutouts := MapWhere(design.cutouts, (c: Cutout) => c.id == id, (c: Cutout) => MergeCutout(c, updates)))
    case RemoveCutout(id) => design.(cutouts := Filter(design.cutouts, (c: Cutout) => c.id != id))
    case AddDivider(d) => design.(dividers := Some(DividersOf(design) + [d.(id := freshId)]))
    case UpdateDivider(id, updates) =>
      design.(dividers := Some(MapWhere(DividersOf(design), (d: Divider) => d.id == id, (d: Divider) => MergeDivider(d, updates))))
    case RemoveDivider(id) => design.(dividers := Some(Filter(DividersOf(design), (d: Divider) => d.id != id)))
    case ResetDesign => DefaultDesign()
    case LoadDesign(loaded) => loaded
  }

  // ---------------------------------------------------------------- properties

  /** RESET_DESIGN returns the default design from any design: the 300 x 60
      rectangle, which has no validation errors. */
  lemma ResetGivesValidDefault(design: Design, freshId: string)
    ensures var r := Reduce(design, ResetDesign, freshId);
      GeneratePolygon(r.layout, r.dimensions, r.orientation) ==
        [Point(0.0, 0.0), Point(300.0, 0.0), Point(300.0, 60.0), Point(0.0, 60.0)] &&
      r.cutouts == [] && Validation.ValidationErrors(r) == []
  {
    Validation.NoCutoutsNoErrors(DefaultDesign());
  }

  /** The default design costs 2081.16 in total (with an exact square root). */
  lemma DefaultDesignPrice(sqrt: real -> real)
    requires Pricing.IsSqrt(sqrt)
    ensures Pricing.Pricing(DefaultDesign(), sqrt).total == 2081.16
  {
    Pricing.DefaultPricing(DefaultDesign(), sqrt);
  }

  /** LOAD_DESIGN replaces the design by its payload. */
  lemma LoadReplaces(design: Design, loaded: Design, freshId: string)
    ensures Reduce(design, LoadDesign(loaded), freshId) == loaded
  {
  }

  /** Whatever the dimensions were, after SET_LAYOUT the new layout has an
      outline; every field the layout reads that was set (not 0) is kept, the
      fields it does not read and every other part of the design are
      untouched, and setting the same layout again changes nothing. */
  lemma SetLayoutFillsDefaults(design: Design, layout: Layout, freshId: string)
    ensures var r := Reduce(design, SetLayout(layout), freshId);
      var d, e := design.dimensions, r.dimensions;
      r == design.(layout := layout, dimensions := e) &&
      !OutlineMissing(layout, e) &&
      (!Falsy(d.length) ==> e.length == d.length) && (!Falsy(d.depth) ==> e.depth == d.depth) &&
      (!Falsy(d.lengthA) ==> e.lengthA == d.lengthA) && (!Falsy(d.lengthB) ==> e.lengthB == d.lengthB) &&
      (!Falsy(d.lengthLeft) ==> e.lengthLeft == d.lengthLeft) && (!Falsy(d.lengthRight) ==> e.lengthRight == d.lengthRight) &&
      (!Falsy(d.gapWidth) ==> e.gapWidth == d.gapWidth) &&
      Reduce(r, SetLayout(layout), freshId) == r
    ensures var e := Reduce(design, SetLayout(layout), freshId).dimensions;
      GeneratePolygon(layout, e, design.orientation) != []
  {
  }

  /** With no dimensions set, SET_LAYOUT gives 300 x 60 for the straight
      layout, 200 / 150 / 60 for the L and 150 / 150 / 100 / 60 for the U. */
  lemma SetLayoutDefaultValues(design: Design, freshId: string)
    requires design.dimensions == Dimensions(None, None, None, None, None, None, None)
    ensures Reduce(design, SetLayout(Straight), freshId).dimensions == Dimensions(Some(300.0), Some(60.0), None, None, None, None, None)
    ensures Reduce(design, SetLayout(LShape), freshId).dimensions == Dimensions(None, Some(60.0), Some(200.0), Some(150.0), None, None, None)
    ensures Reduce(design, SetLayout(UShape), freshId).dimensions ==
      Dimensions(None, Some(60.0), None, None, Some(150.0), Some(150.0), Some(100.0))
  {
  }

  /** SET_DIMENSIONS overrides exactly the supplied fields. */
  lemma SetDimensionsOverrides(design: Design, p: DimensionsPatch, freshId: string)
    ensures var e := Reduce(design, SetDimensions(p), freshId).dimensions;
      var d := design.dimensions;
      e.length == Pick(p.length, d.length) && e.depth == Pick(p.depth, d.depth) &&
      e.lengthA == Pick(p.lengthA, d.lengthA) && e.lengthB == Pick(p.lengthB, d.lengthB) &&
      e.lengthLeft == Pick(p.lengthLeft, d.lengthLeft) && e.lengthRight == Pick(p.lengthRight, d.lengthRight) &&
      e.gapWidth == Pick(p.gapWidth, d.gapWidth)
    ensures p == DimensionsPatch(None, None, None, None, None, None, None) ==> Reduce(design, SetDimensions(p), freshId) == design
  {
  }

  /** The style stored for a segment: that of its first entry. */
  function StyleOf(styles: seq<SegmentStyle>, segmentId: string): (r: Option<Style>)
    ensures r.None? <==> !HasSegment(styles, segmentId)
  {
    if styles == [] then None
    else if styles[0].segmentId == segmentId then Some(styles[0].style)
    else
      assert forall s :: s in styles ==> s == styles[0] || s in styles[1..];
      StyleOf(styles[1..], segmentId)
  }

  lemma {:induction false} StyleOfMapped(styles: seq<SegmentStyle>, segmentId: string, other: string, style: Style)
    requires HasSegment(styles, segmentId)
    ensures var r := MapWhere(styles, (s: SegmentStyle) => s.segmentId == segmentId, (s: SegmentStyle) => s.(style := style));
      StyleOf(r, segmentId) == Some(style) && (other != segmentId ==> StyleOf(r, other) == StyleOf(styles, other))
  {
    var r := MapWhere(styles, (s: SegmentStyle) => s.segmentId == segmentId, (s: SegmentStyle) => s.(style := style));
    assert r[1..] == MapWhere(styles[1..], (s: SegmentStyle) => s.segmentId == segmentId, (s: SegmentStyle) => s.(style := style));
    if styles[0].segmentId != segmentId {
      assert forall s :: s in styles ==> s == styles[0] || s in styles[1..];
      StyleOfMapped(styles[1..], segmentId, other, style);
    } else if other != segmentId {
      StyleOfMappedOthers(styles[1..], segmentId, other, style);
    }
  }

  lemma {:induction false} StyleOfMappedOthers(styles: seq<SegmentStyle>, segmentId: string, other: string, style: Style)
    requires other != segmentId
    ensures var r := MapWhere(styles, (s: SegmentStyle) => s.segmentId == segmentId, (s: SegmentStyle) => s.(style := style));
      StyleOf(r, other) == StyleOf(styles, other)
  {
    if styles != [] {
      var r := MapWhere(styles, (s: SegmentStyle) => s.segmentId == segmentId, (s: SegmentStyle) => s.(style := style));
      assert r[1..] == MapWhere(styles[1..], (s: SegmentStyle) => s.segmentId == segmentId, (s: SegmentStyle) => s.(style := style));
      StyleOfMappedOthers(styles[1..], segmentId, other, style);
    }
  }

  lemma {:induction false} StyleOfAppended(styles: seq<SegmentStyle>, e: SegmentStyle, other: string)
    requires !HasSegment(styles, e.segmentId)
    ensures StyleOf(styles + [e], e.segmentId) == Some(e.style)
    ensures other != e.segmentId ==> StyleOf(styles + [e], other) == StyleOf(styles, other)
  {
    if styles == [] {
      assert styles + [e] == [e];
    } else {
      assert (styles + [e])[1..] == styles[1..] + [e];
      assert forall s :: s in styles[1..] ==> s in styles;
      StyleOfAppended(styles[1..], e, other);
    }
  }

  /** SET_SEGMENT_STYLE is an upsert: afterwards the segment has the new style
      and every other segment keeps its own. If the segment had an entry the
      number of entries is unchanged, otherwise one entry is appended, named
      "Główny" for "main" and the upper-cased id for any other segment. */
  lemma SegmentStyleUpsert(design: Design, segmentId: string, style: Style, other: string, freshId: string)
    ensures var before := if design.segmentStyles.Some? then design.segmentStyles.value else [];
      var r := Reduce(design, SetSegmentStyle(segmentId, style), freshId);
      r.segmentStyles.Some? &&
      StyleOf(r.segmentStyles.value, segmentId) == Some(style) &&
      (other != segmentId ==> StyleOf(r.segmentStyles.value, other) == StyleOf(before, other)) &&
      (HasSegment(before, segmentId) ==> |r.segmentStyles.value| == |before|) &&
      (!HasSegment(before, segmentId) ==>
        r.segmentStyles.value == before + [SegmentStyle(segmentId, if segmentId == "main" then "Główny" else Upper(segmentId), style)])
  {
    var before := if design.segmentStyles.Some? then design.segmentStyles.value else [];
    if HasSegment(before, segmentId) {
      StyleOfMapped(before, segmentId, other, style);
    } else {
      StyleOfAppended(before, SegmentStyle(segmentId, SegmentName(segmentId), style), other);
    }
  }

  /** UPDATE_CUTOUT merges the updates into exactly the cutouts with the id:
      the list keeps its length and order, every other cutout is unchanged,
      and applying the same update twice is the same as once. */
  lemma UpdateCutoutOnlyMatching(design: Design, id: string, u: CutoutPatch, freshId: string)
    ensures var r := Reduce(design, UpdateCutout(id, u), freshId);
      r == design.(cutouts := r.cutouts) && |r.cutouts| == |design.cutouts| &&
      (forall i :: 0 <= i < |design.cutouts| && design.cutouts[i].id != id ==> r.cutouts[i] == design.cutouts[i]) &&
      (forall i :: 0 <= i < |design.cutouts| && design.cutouts[i].id == id ==>
        r.cutouts[i] == MergeCutout(design.cutouts[i], u)) &&
      Reduce(r, UpdateCutout(id, u), freshId) == r
  {
    var r := Reduce(design, UpdateCutout(id, u), freshId);
    var rr := Reduce(r, UpdateCutout(id, u), freshId);
    forall i | 0 <= i < |r.cutouts| ensures rr.cutouts[i] == r.cutouts[i] {
      var c := design.cutouts[i];
      if c.id == id {
        assert r.cutouts[i] == MergeCutout(c, u);
      }
    }
  }

  /** Merging a patch changes exactly the fields the patch supplies. */
  lemma MergeCutoutFields(c: Cutout, u: CutoutPatch)
    ensures u == CutoutPatch(None, None, None, None, None, None, None, None, None, None) ==> MergeCutout(c, u) == c
    ensures u.offsetX.Some? && u.offsetY.Some? && u == CutoutPatch(None, None, None, None, None, None, u.offsetX, u.offsetY, None, None) ==>
      MergeCutout(c, u) == c.(offsetX := u.offsetX.value, offsetY := u.offsetY.value)
    ensures MergeCutout(MergeCutout(c, u), u) == MergeCutout(c, u)
  {
  }

  /** REMOVE_CUTOUT keeps exactly the cutouts with other ids; removing an id
      no cutout has changes nothing. */
  lemma RemoveCutoutFilters(design: Design, id: string, freshId: string)
    ensures var r := Reduce(design, RemoveCutout(id), freshId);
      r == design.(cutouts := r.cutouts) &&
      (forall c :: c in r.cutouts <==> c in design.cutouts && c.id != id) &&
      ((forall c :: c in design.cutouts ==> c.id != id) ==> r == design)
  {
    FilterKeepsAll(design.cutouts, (c: Cutout) => c.id != id);
  }

  /** ADD_CUTOUT appends one cutout carrying the fresh id; when no cutout had
      that id, removing it again gives back the design. */
  lemma AddThenRemoveCutout(design: Design, c: Cutout, freshId: string, laterId: string)
    ensures var r := Reduce(design, AddCutout(c), freshId);
      r == design.(cutouts := design.cutouts + [c.(id := freshId)])
    ensures (forall x :: x in design.cutouts ==> x.id != freshId) ==>
      Reduce(Reduce(design, AddCutout(c), freshId), RemoveCutout(freshId), laterId) == design
  {
    var added := Reduce(design, AddCutout(c), freshId);
    assert added == design.(cutouts := design.cutouts + [c.(id := freshId)]);
    if forall x :: x in design.cutouts ==> x.id != freshId {
      var keep := (x: Cutout) => x.id != freshId;
      assert Reduce(added, RemoveCutout(freshId), laterId) == added.(cutouts := Filter(added.cutouts, keep));
      AppendThenFilter(design.cutouts, c.(id := freshId), keep);
    }
  }

  /** Filtering out an element appended to a list that keeps everything else
      gives the list back. */
  lemma AppendThenFilter<T(!new)>(s: seq<T>, x: T, keep: T -> bool)
    requires forall y :: y in s ==> keep(y)
    requires !keep(x)
    ensures Filter(s + [x], keep) == s
  {
    FilterAppend(s, [x], keep);
    FilterKeepsAll(s, keep);
    assert Filter([x], keep) == [];
    assert s + [] == s;
  }

  predicate UniqueCutoutIds(design: Design) {
    UniqueBy(design.cutouts, (c: Cutout) => c.id)
  }

  /** Distinct cutout ids stay distinct under adding with a fresh id,
      removing, and updates that do not change the id. */
  lemma CutoutIdsStayUnique(design: Design, action: Action, freshId: string)
    requires UniqueCutoutIds(design)
    requires action.AddCutout? ==> forall x :: x in design.cutouts ==> x.id != freshId
    requires action.UpdateCutout? ==> action.cutoutUpdates.id.None?
    requires action.LoadDesign? ==> UniqueCutoutIds(action.design)
    ensures UniqueCutoutIds(Reduce(design, action, freshId))
  {
    var key := (c: Cutout) => c.id;
    match action {
      case AddCutout(c) =>
        var r := design.cutouts + [c.(id := freshId)];
        forall i, j | 0 <= i < j < |r| ensures r[i].id != r[j].id {
          if j == |r| - 1 {
            assert r[i] in design.cutouts;
          }
        }
      case UpdateCutout(id, u) =>
        MapWhereKeepsUnique(design.cutouts, (c: Cutout) => c.id == id, (c: Cutout) => MergeCutout(c, u), key);
      case RemoveCutout(id) =>
        FilterKeepsUnique(design.cutouts, (c: Cutout) => c.id != id, key);
      case _ =>
    }
  }

  /** UPDATE_DIVIDER merges the updates into exactly the dividers with the id,
      treating missing dividers as []. */
  lemma UpdateDividerOnlyMatching(design: Design, id: string, u: DividerPatch, freshId: string)
    ensures var r := Reduce(design, UpdateDivider(id, u), freshId);
      var ds := DividersOf(design);
      r == design.(dividers := r.dividers) && r.dividers.Some? && |r.dividers.value| == |ds| &&
      (forall i :: 0 <= i < |ds| && ds[i].id != id ==> r.dividers.value[i] == ds[i]) &&
      (forall i :: 0 <= i < |ds| && ds[i].id == id ==> r.dividers.value[i] == MergeDivider(ds[i], u))
  {
  }

  /** REMOVE_DIVIDER keeps exactly the dividers with other ids. */
  lemma RemoveDividerFilters(design: Design, id: string, freshId: string)
    ensures var r := Reduce(design, RemoveDivider(id), freshId);
      r == design.(dividers := r.dividers) && r.dividers.Some? &&
      (forall x :: x in r.dividers.value <==> x in DividersOf(design) && x.id != id)
  {
  }

  /** ADD_DIVIDER appends one divider carrying the fresh id; removing it again
      leaves the dividers as they were (a missing list becomes []). */
  lemma AddThenRemoveDivider(design: Design, d: Divider, freshId: string, laterId: string)
    ensures Reduce(design, AddDivider(d), freshId).dividers == Some(DividersOf(design) + [d.(id := freshId)])
    ensures (forall x :: x in DividersOf(design) ==> x.id != freshId) ==>
      Reduce(Reduce(design, AddDivider(d), freshId), RemoveDivider(freshId), laterId) == design.(dividers := Some(DividersOf(design)))
  {
    var ds := DividersOf(design);
    var added := Reduce(design, AddDivider(d), freshId);
    assert added == design.(dividers := Some(ds + [d.(id := freshId)]));
    if forall x :: x in ds ==> x.id != freshId {
      var keep := (x: Divider) => x.id != freshId;
      assert DividersOf(added) == ds + [d.(id := freshId)];
      assert Reduce(added, RemoveDivider(freshId), laterId) == added.(dividers := Some(Filter(DividersOf(added), keep)));
      AppendThenFilter(ds, d.(id := freshId), keep);
    }
  }

  /** Adding a cutout raises the price before VAT by its type's catalogue
      price plus the cutting fee, and nothing else in the breakdown moves. */
  lemma AddCutoutPrice(design: Design, c: Cutout, freshId: string, sqrt: real -> real)
    ensures var before, after := Pricing.Pricing(design, sqrt), Pricing.Pricing(Reduce(design, AddCutout(c), freshId), sqrt);
      after.subtotal == before.subtotal + CutoutTypePrice(c.kind) + CUTTING_COST_PER_CUTOUT &&
      after.area == before.area && after.edgeLength == before.edgeLength && after.materialCost == before.materialCost
  {
    var extra := [c.(id := freshId)];
    Pricing.MoreCutoutsCostMore(design, extra, sqrt);
    assert Pricing.CutoutCost(extra) == CutoutTypePrice(c.kind) + CUTTING_COST_PER_CUTOUT by {
      assert extra[..0] == [];
    }
  }
}
