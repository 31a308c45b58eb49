/** The designer's placement state machine (assets/js/mockmaster-designer.js): the state
    `initDesigner` keeps in its closure and the event handlers that change it. The pure
    transition functions state what each handler does; the `Designer` class holds the same
    state in fields and runs the handlers as methods proved to follow them. */
module Designer {
  import opened Wrappers
  import opened Assoc
  import opened Views
  import opened Placement

  /** A design position in percent of the stage. */
  datatype Position = Position(left: real, top: real)

  /** Where the design image's inline `left`/`top` come from: not set yet, a placement's
      table entry (`applyPlacement`), a saved position (`applyDesignPosition`), or a drag
      to a point in pixels of the stage. */
  datatype Offset = Unset | Placed(placement: string) | Restored(position: Position) | Dragged(x: real, y: real)

  /** An entry of `savedDesigns`; `dimensions` holds the numbers of its dimensions text,
      none for `--`. */
  datatype SavedDesign = SavedDesign(
    name: string, placement: string, placementLabel: string, size: Option<real>,
    dimensions: Option<Dimensions>, position: Position)

  /** What the page provides: the image of each colour (`data.colors[key].image`, in
      order), the default, side and back images, and whether the page has the size slider. */
  datatype Page = Page(colorImages: Table<string>, defaultImage: string, sideImage: string, backImage: string, hasSizeControl: bool)

  /** The closure state. `designName` and `placement` are "" for JavaScript's `''`/`null`. */
  datatype State = State(
    view: string, colorImage: string,
    designName: string, placement: string, size: Option<real>, position: Option<Position>,
    locked: bool, dragging: bool, saved: seq<SavedDesign>,
    designSource: string, naturalWidth: nat, naturalHeight: nat, offset: Offset, baseImage: Image)

  // ---------------------------------------------------------------- savedDesigns

  /** No two saved designs share a name. */
  predicate NamesUnique(ds: seq<SavedDesign>) {
    forall i, j :: 0 <= i < j < |ds| ==> ds[i].name != ds[j].name
  }

  /** `savedDesigns.findIndex((entry) => entry.name === name)`, none for -1. */
  function FindIndex(ds: seq<SavedDesign>, name: string): (r: Option<nat>)
    ensures r.Some? ==> r.value < |ds| && ds[r.value].name == name
    ensures r.Some? ==> forall j :: 0 <= j < r.value ==> ds[j].name != name
    ensures r.None? <==> forall j :: 0 <= j < |ds| ==> ds[j].name != name
  {
    if ds == [] then None
    else if ds[0].name == name then Some(0)
    else
      match FindIndex(ds[1..], name)
      case Some(i) =>
        assert forall j :: 1 <= j <= i + 1 ==> ds[j] == ds[1..][j - 1];
        Some(i + 1)
      case None =>
        assert forall j :: 1 <= j < |ds| ==> ds[j] == ds[1..][j - 1];
        None
  }

  /** `savedDesigns.find((saved) => saved.name === name)`. */
  function Find(ds: seq<SavedDesign>, name: string): (r: Option<SavedDesign>)
    ensures r.Some? ==> r.value in ds && r.value.name == name
    ensures r.None? <==> forall j :: 0 <= j < |ds| ==> ds[j].name != name
  {
    match FindIndex(ds, name)
    case Some(i) => Some(ds[i])
    case None => None
  }

  /** The save handler's update: the entry with the same name is replaced where it stands,
      or the new entry is appended. */
  function Upsert(ds: seq<SavedDesign>, e: SavedDesign): (r: seq<SavedDesign>)
    ensures Find(r, e.name) == Some(e)
    ensures forall n :: n != e.name ==> Find(r, n) == Find(ds, n)
    ensures Find(ds, e.name).Some? ==> |r| == |ds| && forall j :: 0 <= j < |ds| && ds[j].name != e.name ==> r[j] == ds[j]
    ensures Find(ds, e.name).None? ==> r == ds + [e]
    ensures forall j :: 0 <= j < |r| ==> r[j] == e || r[j] in ds
    ensures NamesUnique(ds) ==> NamesUnique(r)
  {
    match FindIndex(ds, e.name)
    case Some(i) =>
      var r := ds[i := e];
      assert r[i].name == e.name;
      assert FindIndex(r, e.name) == Some(i) by {
        var k := FindIndex(r, e.name);
        assert k.Some?;
      }
      assert forall n :: n != e.name ==> Find(r, n) == Find(ds, n) by {
        forall n | n != e.name ensures Find(r, n) == Find(ds, n) {
          FindIndexOther(ds, i, e, n);
        }
      }
      r
    case None =>
      var r := ds + [e];
      assert r[|ds|] == e;
      assert FindIndex(r, e.name) == Some(|ds|) by {
        var k := FindIndex(r, e.name);
        assert k.Some?;
      }
      assert forall n :: n != e.name ==> Find(r, n) == Find(ds, n) by {
        forall n | n != e.name ensures Find(r, n) == Find(ds, n) {
          FindIndexAppend(ds, e, n);
          assert forall j :: 0 <= j < |ds| ==> r[j] == ds[j];
        }
      }
      r
  }

  /** Replacing an entry does not move another name's first entry. */
  lemma {:induction false} FindIndexOther(ds: seq<SavedDesign>, i: nat, e: SavedDesign, n: string)
    requires i < |ds| && ds[i].name == e.name && n != e.name
    ensures FindIndex(ds[i := e], n) == FindIndex(ds, n)
  {
    if i > 0 && ds[0].name != n {
      FindIndexOther(ds[1..], i - 1, e, n);
      assert ds[i := e][1..] == ds[1..][i - 1 := e];
    }
  }

  /** Appending an entry does not move another name's first entry. */
  lemma {:induction false} FindIndexAppend(ds: seq<SavedDesign>, e: SavedDesign, n: string)
    requires n != e.name
    ensures FindIndex(ds + [e], n) == FindIndex(ds, n)
  {
    var r := ds + [e];
    assert forall j :: 0 <= j < |ds| ==> r[j] == ds[j];
    assert r[|ds|] == e;
  }

  // ---------------------------------------------------------------- the transitions

  /** The invariant the handlers keep: saved names are unique, every saved design has a
      name and a placement, and a locked placement belongs to a named design. */
  predicate Valid(s: State) {
    NamesUnique(s.saved) &&
    (forall j :: 0 <= j < |s.saved| ==> s.saved[j].name != "" && s.saved[j].placement != "") &&
    (s.locked ==> s.designName != "")
  }

  function Aspect(s: State): (aspect: real)
    ensures aspect > 0.0
  {
    DesignAspect(s.naturalWidth, s.naturalHeight)
  }

  /** `updatePlacementSlider(placement)`: with a slider and a known placement, the current
      size (or the default when there is none) clamped to the bounds. */
  function UpdatePlacementSlider(page: Page, s: State, placement: string): (r: State)
    ensures page.hasSizeControl && placement in Placements ==>
      var b := SizeBounds(placement, Aspect(s)).value;
      r == s.(size := Some(Clamp(b.min, b.max, s.size.GetOr(b.default)))) && b.min <= r.size.value <= b.max
    ensures !page.hasSizeControl || placement !in Placements ==> r == s
  {
    if !page.hasSizeControl then s
    else
      match SizeBounds(placement, Aspect(s))
      case None => s
      case Some(b) =>
        ShippedBounds(placement, Aspect(s));
        s.(size := Some(Clamp(b.min, b.max, s.size.GetOr(b.default))))
  }

  /** `applyPlacement(placement)`: only the design image's CSS changes. */
  function ApplyPlacement(s: State, placement: string): State {
    if placement in Placements then s.(offset := Placed(placement)) else s
  }

  /** `setBaseImageForView(view)`. */
  function SetBaseImageForView(page: Page, s: State, view: string): State {
    s.(baseImage := BaseImageForView(s.baseImage, view, FrontUrl(s.colorImage, page.defaultImage), page.sideImage, page.backImage))
  }

  /** `setViewForPlacement(placement)`. */
  function SetViewForPlacement(page: Page, s: State, placement: string): State {
    var view := ViewForPlacement(placement);
    SetBaseImageForView(page, s.(view := view), view)
  }

  /** `initDesigner`: the initial state, then `renderColors` showing the first colour's
      image when it has one. */
  function Init(page: Page, baseSrc: string): State {
    var s := State("front", "", "", "", None, None, false, false, [], "", 0, 0, Unset, Image(baseSrc, "", false));
    if |page.colorImages| > 0 && page.colorImages[0].0 != "" && page.colorImages[0].1 != "" then
      SetBaseImageForView(page, s.(colorImage := page.colorImages[0].1), s.view)
    else s
  }

  /** The upload input's change handler, `file` being `files[0]`. */
  function OnUpload(s: State, file: Option<string>): State {
    match file
    case None => s
    case Some(name) => s.(designName := name, placement := "", size := None, locked := false, position := None)
  }

  /** The file reader's load handler: the design image gets the data URL. */
  function OnDesignRead(s: State, dataUrl: string): State {
    s.(designSource := dataUrl)
  }

  /** The design image's load handler, with the loaded image's natural size. */
  function OnDesignLoad(page: Page, s: State, naturalWidth: nat, naturalHeight: nat): State {
    var s1 := s.(naturalWidth := naturalWidth, naturalHeight := naturalHeight);
    if s1.placement != "" then ApplyPlacement(UpdatePlacementSlider(page, s1, s1.placement), s1.placement) else s1
  }

  /** The design image's mousedown handler. */
  function OnMouseDown(s: State): State {
    if s.designSource == "" || s.locked then s else s.(dragging := true)
  }

  /** The document's mousemove handler: the pointer relative to the stage's offset, clamped
      to the stage. */
  function OnMouseMove(s: State, pageX: real, pageY: real, stageOffset: Option<(real, real)>, stageWidth: real, stageHeight: real): State {
    if !s.dragging || s.locked then s
    else
      match stageOffset
      case None => s
      case Some((left, top)) =>
        s.(offset := Dragged(Max(0.0, Min(stageWidth, pageX - left)), Max(0.0, Min(stageHeight, pageY - top))))
  }

  /** The document's mouseup handler. */
  function OnMouseUp(s: State): State {
    if s.dragging then s.(dragging := false) else s
  }

  /** A placement button's click handler. */
  function OnPlacementClick(page: Page, s: State, placement: string): State {
    var s1 := s.(placement := placement, size := None, position := None);
    SetViewForPlacement(page, ApplyPlacement(UpdatePlacementSlider(page, s1, placement), placement), placement)
  }

  /** The size slider's input handler, `value` being `parseFloat` of its value (none for NaN). */
  function OnSizeInput(s: State, value: Option<real>): State {
    match value
    case None => s
    case Some(v) =>
      var s1 := s.(size := Some(v));
      if s1.placement != "" then ApplyPlacement(s1, s1.placement) else s1
  }

  /** The entry the save handler records, `position` being the design position it has
      just measured. */
  function SaveEntry(s: State, position: Position): SavedDesign {
    var size := if s.size.Some? then s.size else
      match SizeConfigOf(s.placement) case Some(c) => Some(c.default) case None => None;
    SavedDesign(s.designName, s.placement, PlacementLabel(s.placement), size,
                PlacementDimensions(s.placement, size, s.size, Aspect(s)), position)
  }

  /** The save button's click handler, `position` being `getDesignPositionPercent()`. */
  function OnSave(s: State, position: Position): State {
    if s.designName == "" || s.placement == "" then s
    else
      var s1 := s.(position := Some(position));
      s1.(saved := Upsert(s1.saved, SaveEntry(s1, position)), locked := true)
  }

  /** An edit button's click handler for the design named `name`. */
  function OnEdit(page: Page, s: State, name: string): State {
    match Find(s.saved, name)
    case None => s
    case Some(e) => Restore(page, s, e)
  }

  /** What the edit handler does with the entry it found. */
  function Restore(page: Page, s: State, e: SavedDesign): State {
    var s1 := s.(designName := e.name, placement := e.placement, size := e.size, position := Some(e.position), locked := false);
    var s2 := ApplyPlacement(UpdatePlacementSlider(page, s1, e.placement), e.placement);
    SetViewForPlacement(page, s2.(offset := Restored(e.position)), e.placement)
  }

  /** An alternate-view button's click handler. */
  function OnAltViewClick(page: Page, s: State, view: string): State {
    SetBaseImageForView(page, s.(view := view), view)
  }

  /** A colour swatch's click handler. */
  function OnSwatchClick(page: Page, s: State, colorKey: string): State {
    var image := GetOr(page.colorImages, colorKey, "");
    var s1 := if image != "" then SetBaseImageForView(page, s.(colorImage := image), s.view) else s;
    s1.(baseImage := s1.baseImage.(flipped := false))
  }

  // ---------------------------------------------------------------- events

  /** The events the handlers respond to, with what each reads from the page. */
  datatype Event =
    | Upload(file: Option<string>)
    | DesignRead(dataUrl: string)
    | DesignLoad(naturalWidth: nat, naturalHeight: nat)
    | MouseDown
    | MouseMove(pageX: real, pageY: real, stageOffset: Option<(real, real)>, stageWidth: real, stageHeight: real)
    | MouseUp
    | PlacementClick(placement: string)
    | SizeInput(value: Option<real>)
    | Save(position: Position)
    | Edit(name: string)
    | AltViewClick(view: string)
    | SwatchClick(colorKey: string)

  /** `setPlacementLockState` disables the placement buttons, the size slider and the save
      button while the placement is locked, and a disabled control fires no event. The lock
      changes only in the upload, save and edit handlers, each of which calls it. */
  predicate Enabled(s: State, ev: Event) {
    !(s.locked && (ev.PlacementClick? || ev.SizeInput? || ev.Save?))
  }

  /** The page's response to one event: the handler of an enabled control. */
  function Step(page: Page, s: State, ev: Event): State {
    if !Enabled(s, ev) then s
    else
    match ev
    case Upload(file) => OnUpload(s, file)
    case DesignRead(dataUrl) => OnDesignRead(s, dataUrl)
    case DesignLoad(w, h) => OnDesignLoad(page, s, w, h)
    case MouseDown => OnMouseDown(s)
    case MouseMove(x, y, offset, w, h) => OnMouseMove(s, x, y, offset, w, h)
    case MouseUp => OnMouseUp(s)
    case PlacementClick(placement) => OnPlacementClick(page, s, placement)
    case SizeInput(value) => OnSizeInput(s, value)
    case Save(position) => OnSave(s, position)
    case Edit(name) => OnEdit(page, s, name)
    case AltViewClick(view) => OnAltViewClick(page, s, view)
    case SwatchClick(key) => OnSwatchClick(page, s, key)
  }

  /** The state after a sequence of events, in order. */
  function Run(page: Page, s: State, evs: seq<Event>): State
    decreases |evs|
  {
    if evs == [] then s else Run(page, Step(page, s, evs[0]), evs[1..])
  }

  // ---------------------------------------------------------------- properties

  /** The page starts in a valid state. */
  lemma InitValid(page: Page, baseSrc: string)
    ensures Valid(Init(page, baseSrc))
    ensures Init(page, baseSrc).saved == [] && !Init(page, baseSrc).locked
  {
  }

  /** The handlers other than upload, save and edit touch neither the saved designs, nor
      the design name, nor the lock. */
  lemma OtherHandlersKeepDesigns(page: Page, s: State, ev: Event)
    requires !ev.Upload? && !ev.Save? && !ev.Edit?
    ensures var r := Step(page, s, ev);
      r.saved == s.saved && r.designName == s.designName && r.locked == s.locked
  {
    match ev
    case DesignLoad(w, h) =>
      var s1 := s.(naturalWidth := w, naturalHeight := h);
      if s1.placement != "" {
        var s2 := UpdatePlacementSlider(page, s1, s1.placement);
        assert s2.saved == s.saved && s2.designName == s.designName && s2.locked == s.locked;
      }
    case PlacementClick(placement) =>
      var s1 := s.(placement := placement, size := None, position := None);
      var s2 := UpdatePlacementSlider(page, s1, placement);
      assert s2.saved == s.saved && s2.designName == s.designName && s2.locked == s.locked;
    case _ =>
  }

  /** A successful save appends or replaces an entry with a name and a placement, which
      keeps the names unique, and locks a named design. */
  lemma SaveKeepsValid(s: State, position: Position)
    requires Valid(s)
    ensures Valid(OnSave(s, position))
  {
    if s.designName != "" && s.placement != "" {
      var s1 := s.(position := Some(position));
      var r := Upsert(s1.saved, SaveEntry(s1, position));
      forall j | 0 <= j < |r| ensures r[j].name != "" && r[j].placement != "" {
        if r[j] != SaveEntry(s1, position) {
          var k :| 0 <= k < |s.saved| && s.saved[k] == r[j];
        }
      }
    }
  }

  /** Editing restores a saved entry, whose name is not empty, and unlocks. */
  lemma EditKeepsValid(page: Page, s: State, name: string)
    requires Valid(s)
    ensures Valid(OnEdit(page, s, name))
  {
    match Find(s.saved, name)
    case None =>
    case Some(e) =>
      var s1 := s.(designName := e.name, placement := e.placement, size := e.size, position := Some(e.position), locked := false);
      var s2 := UpdatePlacementSlider(page, s1, e.placement);
      assert s2.saved == s.saved && !s2.locked;
  }

  /** Every handler keeps the invariant. */
  lemma StepValid(page: Page, s: State, ev: Event)
    requires Valid(s)
    ensures Valid(Step(page, s, ev))
  {
    match ev
    case Save(position) => SaveKeepsValid(s, position);
    case Edit(name) => EditKeepsValid(page, s, name);
    case Upload(file) =>
    case _ => OtherHandlersKeepDesigns(page, s, ev);
  }

  /** Any sequence of events keeps the invariant. */
  lemma {:induction false} RunValid(page: Page, s: State, evs: seq<Event>)
    requires Valid(s)
    ensures Valid(Run(page, s, evs))
    decreases |evs|
  {
    if evs != [] {
      StepValid(page, s, evs[0]);
      RunValid(page, Step(page, s, evs[0]), evs[1..]);
    }
  }

  /** Saving needs a design and a placement; without either nothing changes. */
  lemma SaveNeedsDesignAndPlacement(s: State, position: Position)
    requires s.designName == "" || s.placement == ""
    ensures OnSave(s, position) == s
  {
  }

  /** A successful save records the position, locks, and upserts the entry by name: the
      entry is found under the design's name, an entry of the same name is replaced where it
      stands, otherwise the entry is appended, and other names' entries are untouched. */
  lemma SaveUpserts(s: State, position: Position)
    requires s.designName != "" && s.placement != ""
    ensures var r := OnSave(s, position);
      var e := SaveEntry(s.(position := Some(position)), position);
      r.locked && r.position == Some(position) && e.name == s.designName && e.placement == s.placement &&
      Find(r.saved, s.designName) == Some(e) &&
      (forall n :: n != s.designName ==> Find(r.saved, n) == Find(s.saved, n)) &&
      (Find(s.saved, s.designName).Some? ==> |r.saved| == |s.saved|) &&
      (Find(s.saved, s.designName).None? ==> r.saved == s.saved + [e]) &&
      r == s.(position := Some(position), saved := r.saved, locked := true)
  {
  }

  /** The size a saved entry records: the current size, else the placement's default. */
  lemma SavedSize(s: State, position: Position)
    requires s.designName != "" && s.placement in Placements
    ensures var e := Find(OnSave(s, position).saved, s.designName).value;
      e.size == Some(s.size.GetOr(SizeConfigOf(s.placement).value.default)) &&
      e.dimensions.Some? && e.placementLabel != ""
  {
    SaveUpserts(s, position);
  }

  /** An upload starts a new design: placement, size and position are cleared and the
      placement is unlocked; the saved designs stay. */
  lemma UploadResets(s: State, name: string)
    ensures var r := OnUpload(s, Some(name));
      r.designName == name && r.placement == "" && r.size.None? && r.position.None? && !r.locked &&
      r.saved == s.saved && r.view == s.view && r.baseImage == s.baseImage
  {
  }

  /** A placement click clears the position and restarts the size from the default, which
      the slider keeps as it lies within the bounds; the view follows the placement. */
  lemma PlacementClickResets(page: Page, s: State, placement: string)
    ensures var r := OnPlacementClick(page, s, placement);
      r.placement == placement && r.position.None? && r.view == ViewForPlacement(placement) &&
      r.size == (if page.hasSizeControl && placement in Placements then Some(SizeConfigOf(placement).value.default) else None) &&
      r.saved == s.saved && r.locked == s.locked && r.designName == s.designName
  {
    var s1 := s.(placement := placement, size := None, position := None);
    if page.hasSizeControl && placement in Placements {
      ShippedBounds(placement, Aspect(s1));
    }
  }

  /** Editing a name that is not saved does nothing. */
  lemma EditUnknownIsNoOp(page: Page, s: State, name: string)
    requires forall j :: 0 <= j < |s.saved| ==> s.saved[j].name != name
    ensures OnEdit(page, s, name) == s
  {
  }

  /** Editing a saved design restores its name, placement, size (clamped by the slider)
      and position, and unlocks it; the saved designs stay. */
  lemma EditRestores(page: Page, s: State, name: string)
    requires Find(s.saved, name).Some?
    ensures var e := Find(s.saved, name).value;
      var r := OnEdit(page, s, name);
      r.designName == name && r.placement == e.placement && r.position == Some(e.position) && !r.locked &&
      r.saved == s.saved && r.view == ViewForPlacement(e.placement) &&
      (page.hasSizeControl && e.placement in Placements ==>
        var b := SizeBounds(e.placement, Aspect(s)).value;
        r.size == Some(Clamp(b.min, b.max, e.size.GetOr(b.default)))) &&
      (!page.hasSizeControl || e.placement !in Placements ==> r.size == e.size)
  {
  }

  /** No drag starts without a design image or while the placement is locked. */
  lemma MouseDownGuard(s: State)
    ensures s.designSource == "" || s.locked ==> OnMouseDown(s) == s
    ensures s.designSource != "" && !s.locked ==> OnMouseDown(s) == s.(dragging := true)
  {
  }

  /** A move does nothing unless a drag is on, the placement unlocked and the stage has an
      offset; otherwise the design goes to the pointer relative to the stage, clamped to the
      stage, and nothing else changes. */
  lemma MouseMoveClamps(s: State, pageX: real, pageY: real, stageOffset: Option<(real, real)>, stageWidth: real, stageHeight: real)
    ensures var r := OnMouseMove(s, pageX, pageY, stageOffset, stageWidth, stageHeight);
      (!s.dragging || s.locked || stageOffset.None? ==> r == s) &&
      (s.dragging && !s.locked && stageOffset.Some? && stageWidth >= 0.0 && stageHeight >= 0.0 ==>
        r == s.(offset := Dragged(Clamp(0.0, stageWidth, pageX - stageOffset.value.0),
                                  Clamp(0.0, stageHeight, pageY - stageOffset.value.1)))) &&
      (r != s ==> (r == s.(offset := r.offset) && r.offset.Dragged? &&
        0.0 <= r.offset.x && (stageWidth >= 0.0 ==> r.offset.x <= stageWidth) &&
        0.0 <= r.offset.y && (stageHeight >= 0.0 ==> r.offset.y <= stageHeight)))
  {
  }

  /** While locked, neither a mousedown, a move, a placement click, a size input nor a
      save changes anything: the saved design keeps its placement, size and position. */
  lemma LockedDesignStaysPut(s: State, ev: Event, page: Page)
    requires s.locked && (ev.MouseDown? || ev.MouseMove? || ev.PlacementClick? || ev.SizeInput? || ev.Save?)
    ensures Step(page, s, ev) == s
  {
  }

  /** Until an upload or an edit, a locked design stays locked and no drag starts, whatever
      else happens: the saved designs, the design name, the placement and the saved
      position stay as they were. */
  lemma {:induction false} LockedRunNoDrag(page: Page, s: State, evs: seq<Event>)
    requires s.locked && !s.dragging
    requires forall i :: 0 <= i < |evs| ==> !evs[i].Upload? && !evs[i].Edit?
    ensures var r := Run(page, s, evs);
      r.locked && !r.dragging && r.saved == s.saved && r.designName == s.designName &&
      r.placement == s.placement && r.position == s.position
    decreases |evs|
  {
    if evs != [] {
      var ev := evs[0];
      var s1 := Step(page, s, ev);
      if ev.DesignLoad? {
        var s2 := s.(naturalWidth := ev.naturalWidth, naturalHeight := ev.naturalHeight);
        if s2.placement != "" {
          var s3 := UpdatePlacementSlider(page, s2, s2.placement);
          assert s3.placement == s.placement && s3.position == s.position && s3.dragging == s.dragging;
        }
      } else if !Enabled(s, ev) || ev.MouseDown? || ev.MouseMove? {
        LockedDesignStaysPut(s, ev, page);
      }
      assert s1.locked && !s1.dragging && s1.saved == s.saved && s1.designName == s.designName &&
        s1.placement == s.placement && s1.position == s.position;
      LockedRunNoDrag(page, s1, evs[1..]);
    }
  }

  /** A colour swatch always leaves the stage image unflipped, even on the right view. */
  lemma SwatchUnflips(page: Page, s: State, colorKey: string)
    ensures var r := OnSwatchClick(page, s, colorKey);
      !r.baseImage.flipped && r.view == s.view &&
      r.colorImage == (if GetOr(page.colorImages, colorKey, "") != "" then GetOr(page.colorImages, colorKey, "") else s.colorImage)
  {
  }

  // ---------------------------------------------------------------- the designer object

  /** One designer on the page, its closure state held in fields. */
  class Designer {
    const page: Page
    var currentView: string
    var currentColorImage: string
    var currentDesignName: string
    var currentPlacement: string
    var currentPlacementSize: Option<real>
    var currentDesignPosition: Option<Position>
    var isPlacementLocked: bool
    var isDragging: bool
    var savedDesigns: seq<SavedDesign>
    var designSource: string
    var naturalWidth: nat
    var naturalHeight: nat
    var designOffset: Offset
    var baseImage: Image

    function Snapshot(): State
      reads this
    {
      State(currentView, currentColorImage, currentDesignName, currentPlacement, currentPlacementSize,
            currentDesignPosition, isPlacementLocked, isDragging, savedDesigns, designSource,
            naturalWidth, naturalHeight, designOffset, baseImage)
    }

    /** `initDesigner($root)`, the stage image starting as `baseSrc`. */
    constructor(page: Page, baseSrc: string)
      ensures this.page == page
      ensures Snapshot() == Init(page, baseSrc) && Valid(Snapshot())
    {
      this.page := page;
      currentView := "front";
      currentColorImage := "";
      currentDesignName := "";
      currentPlacement := "";
      currentPlacementSize := None;
      currentDesignPosition := None;
      isPlacementLocked := false;
      isDragging := false;
      savedDesigns := [];
      designSource := "";
      naturalWidth := 0;
      naturalHeight := 0;
      designOffset := Unset;
      baseImage := Image(baseSrc, "", false);
      new;
      if |page.colorImages| > 0 && page.colorImages[0].0 != "" && page.colorImages[0].1 != "" {
        currentColorImage := page.colorImages[0].1;
        ShowBaseImage(currentView);
      }
      InitValid(page, baseSrc);
    }

    /** `updatePlacementSlider(placement)`. */
    method RefreshSlider(placement: string)
      modifies this
      ensures Snapshot() == UpdatePlacementSlider(page, old(Snapshot()), placement)
    {
      if !page.hasSizeControl {
        return;
      }
      var bounds := SizeBounds(placement, DesignAspect(naturalWidth, naturalHeight));
      if bounds.None? {
        return;
      }
      var nextSize := currentPlacementSize.GetOr(bounds.value.default);
      currentPlacementSize := Some(Min(bounds.value.max, Max(bounds.value.min, nextSize)));
    }

    /** `applyPlacement(placement)`. */
    method ApplyPlacementCss(placement: string)
      modifies this
      ensures Snapshot() == ApplyPlacement(old(Snapshot()), placement)
    {
      if SizeConfigOf(placement).Some? {
        designOffset := Placed(placement);
      }
    }

    /** `setBaseImageForView(view)`. */
    method ShowBaseImage(view: string)
      modifies this
      ensures Snapshot() == SetBaseImageForView(page, old(Snapshot()), view)
    {
      var frontUrl := if currentColorImage != "" then currentColorImage else page.defaultImage;
      var (primary, fallback) := ViewImage(view, frontUrl, page.sideImage, page.backImage);
      if primary != "" {
        baseImage := baseImage.(src := primary, fallback := fallback);
      }
      baseImage := baseImage.(flipped := view == "right");
    }

    /** `setViewForPlacement(placement)`. */
    method ShowViewForPlacement(placement: string)
      modifies this
      ensures Snapshot() == SetViewForPlacement(page, old(Snapshot()), placement)
    {
      var nextView := ViewForPlacement(placement);
      currentView := nextView;
      ShowBaseImage(nextView);
    }

    method Upload(file: Option<string>)
      modifies this
      requires Valid(Snapshot())
      ensures Snapshot() == OnUpload(old(Snapshot()), file) && Valid(Snapshot())
    {
      if file.None? {
        return;
      }
      currentDesignName := file.value;
      currentPlacement := "";
      currentPlacementSize := None;
      isPlacementLocked := false;
      currentDesignPosition := None;
      StepValid(page, old(Snapshot()), Event.Upload(file));
    }

    method DesignRead(dataUrl: string)
      modifies this
      requires Valid(Snapshot())
      ensures Snapshot() == OnDesignRead(old(Snapshot()), dataUrl) && Valid(Snapshot())
    {
      designSource := dataUrl;
    }

    method DesignLoad(width: nat, height: nat)
      modifies this
      requires Valid(Snapshot())
      ensures Snapshot() == OnDesignLoad(page, old(Snapshot()), width, height) && Valid(Snapshot())
    {
      ghost var s0 := Snapshot();
      naturalWidth := width;
      naturalHeight := height;
      ghost var s1 := s0.(naturalWidth := width, naturalHeight := height);
      assert Snapshot() == s1;
      if currentPlacement != "" {
        RefreshSlider(currentPlacement);
        ghost var s2 := Snapshot();
        assert s2 == UpdatePlacementSlider(page, s1, s1.placement);
        ApplyPlacementCss(currentPlacement);
        assert Snapshot() == ApplyPlacement(s2, s1.placement);
      }
      assert Snapshot().saved == s0.saved && Snapshot().designName == s0.designName && Snapshot().locked == s0.locked;
    }

    method MouseDown()
      modifies this
      requires Valid(Snapshot())
      ensures Snapshot() == OnMouseDown(old(Snapshot())) && Valid(Snapshot())
    {
      if designSource == "" || isPlacementLocked {
        return;
      }
      isDragging := true;
    }

    method MouseMove(pageX: real, pageY: real, stageOffset: Option<(real, real)>, stageWidth: real, stageHeight: real)
      modifies this
      requires Valid(Snapshot())
      ensures Snapshot() == OnMouseMove(old(Snapshot()), pageX, pageY, stageOffset, stageWidth, stageHeight) && Valid(Snapshot())
    {
      if !isDragging || isPlacementLocked || stageOffset.None? {
        return;
      }
      var x := pageX - stageOffset.value.0;
      var y := pageY - stageOffset.value.1;
      x := Max(0.0, Min(stageWidth, x));
      y := Max(0.0, Min(stageHeight, y));
      designOffset := Dragged(x, y);
    }

    method MouseUp()
      modifies this
      requires Valid(Snapshot())
      ensures Snapshot() == OnMouseUp(old(Snapshot())) && Valid(Snapshot())
    {
      if isDragging {
        isDragging := false;
      }
    }

    method PlacementClick(placement: string)
      modifies this
      requires Valid(Snapshot())
      ensures Snapshot() == OnPlacementClick(page, old(Snapshot()), placement) && Valid(Snapshot())
    {
      ghost var s0 := Snapshot();
      currentPlacement := placement;
      currentPlacementSize := None;
      currentDesignPosition := None;
      ghost var s1 := s0.(placement := placement, size := None, position := None);
      assert Snapshot() == s1;
      RefreshSlider(placement);
      ghost var s2 := Snapshot();
      assert s2 == UpdatePlacementSlider(page, s1, placement);
      ApplyPlacementCss(placement);
      assert Snapshot() == ApplyPlacement(s2, placement);
      ShowViewForPlacement(placement);
      assert Snapshot().saved == s0.saved && Snapshot().designName == s0.designName && Snapshot().locked == s0.locked;
    }

    method SizeInput(value: Option<real>)
      modifies this
      requires Valid(Snapshot())
      ensures Snapshot() == OnSizeInput(old(Snapshot()), value) && Valid(Snapshot())
    {
      if value.None? {
        return;
      }
      currentPlacementSize := value;
      if currentPlacement != "" {
        ApplyPlacementCss(currentPlacement);
      }
    }

    method Save(position: Position)
      modifies this
      requires Valid(Snapshot())
      ensures Snapshot() == OnSave(old(Snapshot()), position) && Valid(Snapshot())
    {
      if currentDesignName == "" || currentPlacement == "" {
        return;
      }
      ghost var s0 := Snapshot();
      currentDesignPosition := Some(position);
      ghost var s1 := s0.(position := Some(position));
      assert Snapshot() == s1;
      var entry := SaveEntry(Snapshot(), position);
      ghost var s2 := s1.(saved := Upsert(s1.saved, entry), locked := true);
      assert OnSave(s0, position) == s2;
      var existingIndex := FindIndex(savedDesigns, currentDesignName);
      if existingIndex.Some? {
        savedDesigns := savedDesigns[existingIndex.value := entry];
      } else {
        savedDesigns := savedDesigns + [entry];
      }
      assert savedDesigns == s2.saved;
      isPlacementLocked := true;
      assert Snapshot() == s2;
      SaveKeepsValid(s0, position);
    }

    method Edit(name: string)
      modifies this
      requires Valid(Snapshot())
      ensures Snapshot() == OnEdit(page, old(Snapshot()), name) && Valid(Snapshot())
    {
      var entry := Find(savedDesigns, name);
      if entry.None? {
        return;
      }
      RestoreEntry(entry.value);
      StepValid(page, old(Snapshot()), Event.Edit(name));
    }

    /** The edit handler's work once it has found entry `e`. */
    method RestoreEntry(e: SavedDesign)
      modifies this
      ensures Snapshot() == Restore(page, old(Snapshot()), e)
    {
      ghost var s1 := old(Snapshot()).(designName := e.name, placement := e.placement, size := e.size,
                                       position := Some(e.position), locked := false);
      currentDesignName := e.name;
      currentPlacement := e.placement;
      currentPlacementSize := e.size;
      currentDesignPosition := Some(e.position);
      isPlacementLocked := false;
      assert Snapshot() == s1;
      RefreshSlider(e.placement);
      ApplyPlacementCss(e.placement);
      designOffset := Restored(e.position);
      ShowViewForPlacement(e.placement);
    }

    method AltViewClick(view: string)
      modifies this
      requires Valid(Snapshot())
      ensures Snapshot() == OnAltViewClick(page, old(Snapshot()), view) && Valid(Snapshot())
    {
      currentView := view;
      ShowBaseImage(view);
    }

    method SwatchClick(colorKey: string)
      modifies this
      requires Valid(Snapshot())
      ensures Snapshot() == OnSwatchClick(page, old(Snapshot()), colorKey) && Valid(Snapshot())
    {
      var image := GetOr(page.colorImages, colorKey, "");
      if image != "" {
        currentColorImage := image;
        ShowBaseImage(currentView);
      }
      baseImage := baseImage.(flipped := false);
    }
  }
}
