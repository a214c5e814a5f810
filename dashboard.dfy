/** The client state of the dashboard page in static/js/sis_index.js: the
    dark-mode flag and its persisted copy, the table of live chart handles
    (one slot per chart: bar, line, doughnut, trend) and the city carousel's
    scroll offset with the visibility of its two buttons. Chart.js itself,
    the DOM and localStorage are reduced to the fields they hold. */
module SisDashboard {
  import opened Wrappers

  // ---------------------------------------------------------------------
  // Chart slots and datasets
  // ---------------------------------------------------------------------

  /** The four entries of `activeCharts`. */
  datatype Slot = Bar | Line | Pie | Trend

  /** The order in which `Object.values(activeCharts)` lists the slots: the
      order of the object literal and of the assignments in initAllCharts. */
  const SlotOrder: seq<Slot> := [Bar, Line, Pie, Trend]

  /** The palette a chart was drawn with. */
  datatype Theme = Light | Dark

  function ThemeOf(darkMode: bool): Theme {
    if darkMode then Dark else Light
  }

  /** A live Chart.js instance, reduced to the values of its first dataset
      and the palette it was created with. */
  datatype Chart = Chart(data: seq<int>, palette: Theme)

  /** The dataset each chart starts with. */
  function InitialData(s: Slot): seq<int> {
    match s
    case Bar => [300, 200, 100]
    case Line => [100, 250, 400, 500]
    case Pie => [70, 20, 10]
    case Trend => [100, 250, 200, 400]
  }

  /** initAllCharts on a table: every slot whose mount point exists gets a
      new chart with its initial dataset in the current palette; a slot
      without a mount point keeps whatever it held. */
  function Mounted(charts: map<Slot, Chart>, mounts: set<Slot>, palette: Theme): (r: map<Slot, Chart>)
    ensures r.Keys == charts.Keys + mounts
    ensures forall s :: s in mounts ==> r[s] == Chart(InitialData(s), palette)
    ensures forall s :: s in charts && s !in mounts ==> r[s] == charts[s]
  {
    map s | s in charts.Keys + mounts :: if s in mounts then Chart(InitialData(s), palette) else charts[s]
  }

  /** Two chart tables with the same live slots holding the same charts are
      the same table. */
  lemma SameTable(a: map<Slot, Chart>, b: map<Slot, Chart>)
    requires a.Keys == b.Keys
    requires forall s :: s in a ==> a[s] == b[s]
    ensures a == b
  {
  }

  /** The parsed JSON body of a stats reply: each field may be missing. */
  datatype Payload = Payload(
    distribution: Option<seq<int>>,
    processed: Option<seq<int>>,
    status: Option<seq<int>>,
    trend: Option<seq<int>>)

  /** The payload field that feeds each chart. */
  function FieldFor(p: Payload, s: Slot): Option<seq<int>> {
    match s
    case Bar => p.distribution
    case Line => p.processed
    case Pie => p.status
    case Trend => p.trend
  }

  /** updateChartsData on a table: a live chart takes the values of its
      payload field when that field is present; nothing else changes. */
  function Patched(charts: map<Slot, Chart>, p: Payload): (r: map<Slot, Chart>)
    ensures r.Keys == charts.Keys
    ensures forall s :: s in r ==> r[s].palette == charts[s].palette
    ensures forall s :: s in r && FieldFor(p, s).Some? ==> r[s].data == FieldFor(p, s).value
    ensures forall s :: s in r && FieldFor(p, s).None? ==> r[s] == charts[s]
  {
    map s | s in charts :: if FieldFor(p, s).Some? then charts[s].(data := FieldFor(p, s).value) else charts[s]
  }

  /** One `if (activeCharts.x && data.y)` step of updateChartsData. */
  function PatchSlot(charts: map<Slot, Chart>, s: Slot, field: Option<seq<int>>): map<Slot, Chart> {
    if s in charts && field.Some? then charts[s := charts[s].(data := field.value)] else charts
  }

  /** The four steps of updateChartsData, in source order, build the patched
      table. */
  lemma PatchedSlotBySlot(charts: map<Slot, Chart>, p: Payload)
    ensures Patched(charts, p)
            == PatchSlot(PatchSlot(PatchSlot(PatchSlot(charts, Bar, p.distribution),
                                             Line, p.processed), Pie, p.status), Trend, p.trend)
  {
    var steps := PatchSlot(PatchSlot(PatchSlot(PatchSlot(charts, Bar, p.distribution),
                                               Line, p.processed), Pie, p.status), Trend, p.trend);
    var patched := Patched(charts, p);
    forall s | s in steps
      ensures steps[s] == patched[s]
    {
      match s
      case Bar =>
      case Line =>
      case Pie =>
      case Trend =>
    }
    SameTable(steps, patched);
  }

  /** A payload that carries only `distribution` redraws only the bar
      chart. */
  lemma DistributionOnlyTouchesBar(charts: map<Slot, Chart>, d: seq<int>)
    ensures var r := Patched(charts, Payload(Some(d), None, None, None));
      && (Bar in charts ==> r[Bar] == charts[Bar].(data := d))
      && forall s :: s in charts && s != Bar ==> r[s] == charts[s]
  {
  }

  /** The handles `destroyCharts` calls `destroy()` on, in the order it
      visits them: the live entries of `charts` among `order`. */
  function Released(charts: map<Slot, Chart>, order: seq<Slot>): (r: seq<Slot>)
    ensures |r| <= |order|
    ensures forall i :: 0 <= i < |r| ==> r[i] in charts && r[i] in order
  {
    if order == [] then []
    else Released(charts, order[..|order| - 1])
         + (if order[|order| - 1] in charts then [order[|order| - 1]] else [])
  }

  /** Every live handle is destroyed, and nothing else is. */
  lemma {:induction false} ReleasedExactlyLive(charts: map<Slot, Chart>, order: seq<Slot>)
    ensures forall s :: s in Released(charts, order) <==> s in charts && s in order
  {
    if order != [] {
      var last := order[|order| - 1];
      ReleasedExactlyLive(charts, order[..|order| - 1]);
      assert order == order[..|order| - 1] + [last];
    }
  }

  /** No handle is destroyed twice in one call. */
  lemma {:induction false} ReleasedOnce(charts: map<Slot, Chart>, order: seq<Slot>)
    requires forall i, j :: 0 <= i < j < |order| ==> order[i] != order[j]
    ensures forall i, j :: 0 <= i < j < |Released(charts, order)| ==>
              Released(charts, order)[i] != Released(charts, order)[j]
  {
    if order != [] {
      var init := order[..|order| - 1];
      var last := order[|order| - 1];
      ReleasedOnce(charts, init);
      ReleasedExactlyLive(charts, init);
      assert last !in init;
    }
  }

  /** With no live handles, destroyCharts destroys nothing. */
  lemma {:induction false} ReleasedNothing(order: seq<Slot>)
    ensures Released(map[], order) == []
  {
    if order != [] {
      ReleasedNothing(order[..|order| - 1]);
    }
  }

  /** After destroyCharts, a stats update has nothing to patch. */
  lemma PatchAfterDestroy(p: Payload)
    ensures Patched(map[], p) == map[]
  {
  }

  // ---------------------------------------------------------------------
  // Theme persistence
  // ---------------------------------------------------------------------

  /** What the toggle writes under the 'theme' key. */
  function StoredFor(darkMode: bool): string {
    if darkMode then "dark" else "light"
  }

  /** Startup turns dark mode on only for the exact stored string 'dark'. */
  predicate StartsDark(stored: Option<string>) {
    stored == Some("dark")
  }

  /** A toggled theme survives a reload: the value written makes the next
      startup choose the mode the toggle selected. */
  lemma StoredThemeRoundTrip(darkMode: bool)
    ensures StartsDark(Some(StoredFor(darkMode))) == darkMode
  {
  }

  /** The glyph on the theme button. */
  datatype Glyph = Moon | Sun

  // ---------------------------------------------------------------------
  // Carousel arithmetic
  // ---------------------------------------------------------------------

  const Step := 200

  /** The prev handler's new offset, `Math.max(0, pos - 200)`. */
  function PrevOffset(pos: int): (r: int)
    ensures r >= 0 && r >= pos - Step
    ensures r == 0 || r == pos - Step
    ensures pos >= 0 ==> r <= pos
  {
    if pos - Step > 0 then pos - Step else 0
  }

  /** The next handler's new offset, `Math.min(maxScroll, pos + 200)`. */
  function NextOffset(pos: int, maxScroll: int): (r: int)
    ensures r <= maxScroll && r <= pos + Step
    ensures r == maxScroll || r == pos + Step
    ensures pos <= maxScroll ==> pos <= r
  {
    if maxScroll < pos + Step then maxScroll else pos + Step
  }

  /** updateScroll hides the prev button at or below offset 0 ... */
  predicate PrevHidden(pos: int) {
    pos <= 0
  }

  /** ... and the next button at or beyond the overflow width. */
  predicate NextHidden(pos: int, maxScroll: int) {
    pos >= maxScroll
  }

  /** Prev at the start, and next at the end, leave the offset where it is;
      a click on a button that is shown moves the offset. */
  lemma ClicksAtBounds(pos: int, maxScroll: int)
    ensures pos == 0 ==> PrevOffset(pos) == 0
    ensures pos == maxScroll ==> NextOffset(pos, maxScroll) == maxScroll
    ensures !PrevHidden(pos) ==> PrevOffset(pos) < pos
    ensures !NextHidden(pos, maxScroll) ==> NextOffset(pos, maxScroll) > pos
  {
  }

  datatype Click = PrevClick | NextClick

  /** The offset after a run of button clicks, with the overflow width
      fixed. */
  function AfterClicks(pos: int, clicks: seq<Click>, maxScroll: int): int
    decreases |clicks|
  {
    if clicks == [] then pos
    else
      var next := if clicks[0] == PrevClick then PrevOffset(pos) else NextOffset(pos, maxScroll);
      AfterClicks(next, clicks[1..], maxScroll)
  }

  /** Once inside [0, maxScroll], no run of clicks leaves it. */
  lemma {:induction false} ClicksStayInBounds(pos: int, clicks: seq<Click>, maxScroll: int)
    requires 0 <= pos <= maxScroll
    ensures 0 <= AfterClicks(pos, clicks, maxScroll) <= maxScroll
    decreases |clicks|
  {
    if clicks != [] {
      var next := if clicks[0] == PrevClick then PrevOffset(pos) else NextOffset(pos, maxScroll);
      ClicksStayInBounds(next, clicks[1..], maxScroll);
    }
  }

  /** From the initial offset 0, with content at least as wide as its
      viewport, the offset stays within [0, maxScroll]. */
  lemma FromStartStaysInBounds(clicks: seq<Click>, maxScroll: int)
    requires maxScroll >= 0
    ensures 0 <= AfterClicks(0, clicks, maxScroll) <= maxScroll
  {
    ClicksStayInBounds(0, clicks, maxScroll);
  }

  /** The arithmetic of the next handler with a negative maxScroll (content
      narrower than its viewport): from 0 it gives a negative offset. With
      the layout fixed this click cannot happen, because updateScroll has
      already hidden the next button; see NarrowLayoutHidesBoth and
      LayoutShrinkGoesNegative for when it can. */
  lemma NarrowContentGoesNegative(maxScroll: int)
    requires maxScroll < 0
    ensures AfterClicks(0, [NextClick], maxScroll) == maxScroll < 0
  {
  }

  // ---------------------------------------------------------------------
  // The page state
  // ---------------------------------------------------------------------

  /** The mutable state of one page: module variables, the body's
      dark-mode class, the theme button glyph, localStorage's 'theme' entry,
      the `scrollPosition` closure variable and the button visibilities. */
  class Dashboard {
    /** Chart slots whose canvas element exists in the page. */
    const mounts: set<Slot>
    /** Whether the carousel container and both buttons exist. */
    const carouselMounted: bool

    var darkMode: bool
    var glyph: Glyph
    var storedTheme: Option<string>
    var charts: map<Slot, Chart>
    /** The handles `destroy()` has been called on, oldest first. */
    var released: seq<Slot>
    var scrollPosition: int
    var prevVisible: bool
    var nextVisible: bool

    /** The state before DOMContentLoaded: every handle null, the page in
        light mode, localStorage holding `stored`. */
    constructor (mounts: set<Slot>, carouselMounted: bool, stored: Option<string>)
      ensures this.mounts == mounts && this.carouselMounted == carouselMounted
      ensures storedTheme == stored && !darkMode && glyph == Sun
      ensures charts == map[] && released == [] && scrollPosition == 0
      ensures prevVisible && nextVisible
    {
      this.mounts := mounts;
      this.carouselMounted := carouselMounted;
      darkMode := false;
      glyph := Sun;
      storedTheme := stored;
      charts := map[];
      released := [];
      scrollPosition := 0;
      prevVisible := true;
      nextVisible := true;
    }

    /** setupTheme at startup: the stored value 'dark', and only it, turns
        dark mode on and shows the moon. */
    method SetupTheme()
      modifies this
      ensures darkMode == (old(darkMode) || StartsDark(storedTheme))
      ensures glyph == if StartsDark(storedTheme) then Moon else old(glyph)
      ensures storedTheme == old(storedTheme) && charts == old(charts) && released == old(released)
      ensures scrollPosition == old(scrollPosition)
      ensures prevVisible == old(prevVisible) && nextVisible == old(nextVisible)
    {
      if storedTheme == Some("dark") {
        darkMode := true;
        glyph := Moon;
      }
    }

    /** destroyCharts: destroys every live handle once, in slot order, then
        empties the table. */
    method DestroyCharts()
      modifies this
      ensures charts == map[]
      ensures released == old(released) + Released(old(charts), SlotOrder)
      ensures darkMode == old(darkMode) && glyph == old(glyph) && storedTheme == old(storedTheme)
      ensures scrollPosition == old(scrollPosition)
      ensures prevVisible == old(prevVisible) && nextVisible == old(nextVisible)
    {
      var i := 0;
      while i < |SlotOrder|
        invariant 0 <= i <= |SlotOrder|
        invariant charts == old(charts)
        invariant released == old(released) + Released(charts, SlotOrder[..i])
        invariant darkMode == old(darkMode) && glyph == old(glyph) && storedTheme == old(storedTheme)
        invariant scrollPosition == old(scrollPosition)
        invariant prevVisible == old(prevVisible) && nextVisible == old(nextVisible)
      {
        var s := SlotOrder[i];
        assert SlotOrder[..i + 1][..i] == SlotOrder[..i];
        if s in charts {
          released := released + [s];
        }
        i := i + 1;
      }
      assert SlotOrder[..|SlotOrder|] == SlotOrder;
      charts := map[];
    }

    /** initAllCharts: a chart in the current palette, with its initial
        dataset, in every slot whose canvas exists. */
    method InitAllCharts()
      modifies this
      ensures charts == Mounted(old(charts), mounts, ThemeOf(darkMode))
      ensures darkMode == old(darkMode) && glyph == old(glyph) && storedTheme == old(storedTheme)
      ensures released == old(released) && scrollPosition == old(scrollPosition)
      ensures prevVisible == old(prevVisible) && nextVisible == old(nextVisible)
    {
      var palette := if darkMode then Dark else Light;
      var table := charts;
      if Bar in mounts {
        table := table[Bar := Chart([300, 200, 100], palette)];
      }
      if Line in mounts {
        table := table[Line := Chart([100, 250, 400, 500], palette)];
      }
      if Pie in mounts {
        table := table[Pie := Chart([70, 20, 10], palette)];
      }
      if Trend in mounts {
        table := table[Trend := Chart([100, 250, 200, 400], palette)];
      }
      SameTable(table, Mounted(charts, mounts, palette));
      charts := table;
    }

    /** The theme button's click handler: flips the mode, persists it,
        updates the glyph and rebuilds every chart in the new palette (the
        50 ms delay before the rebuild is not modelled). */
    method ToggleTheme()
      modifies this
      ensures darkMode == !old(darkMode)
      ensures storedTheme == Some(StoredFor(darkMode))
      ensures glyph == if darkMode then Moon else Sun
      ensures released == old(released) + Released(old(charts), SlotOrder)
      ensures charts == Mounted(map[], mounts, ThemeOf(darkMode))
      ensures scrollPosition == old(scrollPosition)
      ensures prevVisible == old(prevVisible) && nextVisible == old(nextVisible)
    {
      darkMode := !darkMode;
      storedTheme := Some(if darkMode then "dark" else "light");
      glyph := if darkMode then Moon else Sun;
      DestroyCharts();
      InitAllCharts();
    }

    /** updateChartsData: each live chart whose payload field is present
        takes that field's values; every other slot is left as it was. */
    method UpdateChartsData(payload: Payload)
      modifies this
      ensures charts == Patched(old(charts), payload)
      ensures darkMode == old(darkMode) && glyph == old(glyph) && storedTheme == old(storedTheme)
      ensures released == old(released) && scrollPosition == old(scrollPosition)
      ensures prevVisible == old(prevVisible) && nextVisible == old(nextVisible)
    {
      var table := charts;
      if Bar in table && payload.distribution.Some? {
        table := table[Bar := table[Bar].(data := payload.distribution.value)];
      }
      if Line in table && payload.processed.Some? {
        table := table[Line := table[Line].(data := payload.processed.value)];
      }
      if Pie in table && payload.status.Some? {
        table := table[Pie := table[Pie].(data := payload.status.value)];
      }
      if Trend in table && payload.trend.Some? {
        table := table[Trend := table[Trend].(data := payload.trend.value)];
      }
      PatchedSlotBySlot(charts, payload);
      charts := table;
    }

    /** updateScroll: the prev button is shown exactly when the offset is
        positive, the next button exactly when it is below maxScroll. */
    method UpdateScroll(maxScroll: int)
      modifies this
      ensures prevVisible == !PrevHidden(scrollPosition)
      ensures nextVisible == !NextHidden(scrollPosition, maxScroll)
      ensures scrollPosition == old(scrollPosition) && charts == old(charts) && released == old(released)
      ensures darkMode == old(darkMode) && glyph == old(glyph) && storedTheme == old(storedTheme)
    {
      prevVisible := !(scrollPosition <= 0);
      nextVisible := !(scrollPosition >= maxScroll);
    }

    /** setupCityNavigation: the offset starts at 0; when the carousel is
        present the buttons are shown or hidden for it. */
    method SetupCityNavigation(maxScroll: int)
      modifies this
      ensures scrollPosition == 0
      ensures carouselMounted ==> prevVisible == false && nextVisible == (maxScroll > 0)
      ensures !carouselMounted ==> prevVisible == old(prevVisible) && nextVisible == old(nextVisible)
      ensures charts == old(charts) && released == old(released)
      ensures darkMode == old(darkMode) && glyph == old(glyph) && storedTheme == old(storedTheme)
    {
      scrollPosition := 0;
      if !carouselMounted {
        return;
      }
      UpdateScroll(maxScroll);
    }

    /** The prev button's click handler; a hidden button takes no clicks. */
    method ClickPrev(maxScroll: int)
      requires carouselMounted && prevVisible
      modifies this
      ensures scrollPosition == PrevOffset(old(scrollPosition))
      ensures 0 <= old(scrollPosition) <= maxScroll ==> 0 <= scrollPosition <= maxScroll
      ensures prevVisible == !PrevHidden(scrollPosition)
      ensures nextVisible == !NextHidden(scrollPosition, maxScroll)
      ensures charts == old(charts) && released == old(released)
      ensures darkMode == old(darkMode) && glyph == old(glyph) && storedTheme == old(storedTheme)
    {
      scrollPosition := if 0 > scrollPosition - 200 then 0 else scrollPosition - 200;
      UpdateScroll(maxScroll);
    }

    /** The next button's click handler; maxScroll is re-read from the
        layout on every click; a hidden button takes no clicks. */
    method ClickNext(maxScroll: int)
      requires carouselMounted && nextVisible
      modifies this
      ensures scrollPosition == NextOffset(old(scrollPosition), maxScroll)
      ensures 0 <= old(scrollPosition) <= maxScroll ==> 0 <= scrollPosition <= maxScroll
      ensures prevVisible == !PrevHidden(scrollPosition)
      ensures nextVisible == !NextHidden(scrollPosition, maxScroll)
      ensures charts == old(charts) && released == old(released)
      ensures darkMode == old(darkMode) && glyph == old(glyph) && storedTheme == old(storedTheme)
    {
      scrollPosition := if maxScroll < scrollPosition + 200 then maxScroll else scrollPosition + 200;
      UpdateScroll(maxScroll);
    }

    /** The DOMContentLoaded handler: theme, then charts, then carousel. */
    method Load(maxScroll: int)
      modifies this
      ensures darkMode == (old(darkMode) || StartsDark(storedTheme))
      ensures glyph == if StartsDark(storedTheme) then Moon else old(glyph)
      ensures charts == Mounted(old(charts), mounts, ThemeOf(darkMode))
      ensures StartsDark(storedTheme) ==> forall s :: s in mounts ==> charts[s].palette == Dark
      ensures storedTheme == old(storedTheme) && released == old(released)
      ensures scrollPosition == 0
      ensures carouselMounted ==> !prevVisible && nextVisible == (maxScroll > 0)
      ensures !carouselMounted ==> prevVisible == old(prevVisible) && nextVisible == old(nextVisible)
    {
      SetupTheme();
      InitAllCharts();
      SetupCityNavigation(maxScroll);
    }
  }

  // ---------------------------------------------------------------------
  // Carousel scenarios on a fresh page
  // ---------------------------------------------------------------------

  /** A user who, with the layout fixed, presses whichever buttons are
      shown, in the order of `clicks` (a press on a hidden button does
      nothing), ends at the offset AfterClicks computes, within
      [0, maxScroll]. */
  method ClickThrough(clicks: seq<Click>, maxScroll: int) returns (pos: int)
    requires maxScroll >= 0
    ensures pos == AfterClicks(0, clicks, maxScroll)
    ensures 0 <= pos <= maxScroll
  {
    var page := new Dashboard({}, true, None);
    page.SetupCityNavigation(maxScroll);
    var i := 0;
    while i < |clicks|
      invariant 0 <= i <= |clicks|
      invariant 0 <= page.scrollPosition <= maxScroll
      invariant page.prevVisible == !PrevHidden(page.scrollPosition)
      invariant page.nextVisible == !NextHidden(page.scrollPosition, maxScroll)
      invariant AfterClicks(page.scrollPosition, clicks[i..], maxScroll) == AfterClicks(0, clicks, maxScroll)
    {
      assert clicks[i..][1..] == clicks[i + 1..];
      if clicks[i] == PrevClick {
        if page.prevVisible {
          page.ClickPrev(maxScroll);
        }
      } else {
        if page.nextVisible {
          page.ClickNext(maxScroll);
        }
      }
      i := i + 1;
    }
    pos := page.scrollPosition;
  }

  /** With content no wider than its viewport and the layout fixed, setup
      hides both buttons, so no click can move the offset below 0. */
  method NarrowLayoutHidesBoth(maxScroll: int) returns (prevShown: bool, nextShown: bool)
    requires maxScroll <= 0
    ensures !prevShown && !nextShown
  {
    var page := new Dashboard({}, true, None);
    page.SetupCityNavigation(maxScroll);
    prevShown, nextShown := page.prevVisible, page.nextVisible;
  }

  /** When the layout narrows after updateScroll has shown the next button
      (maxScroll 300 at setup, -50 at the click), the next click drives the
      offset below 0. */
  method LayoutShrinkGoesNegative() returns (pos: int)
    ensures pos == -50
  {
    var page := new Dashboard({}, true, None);
    page.SetupCityNavigation(300);
    page.ClickNext(-50);
    pos := page.scrollPosition;
  }

  /** When the layout narrows while the offset is far right, a prev click
      can leave the offset beyond the new maxScroll. */
  method LayoutShrinkLeavesOffsetPastEnd() returns (pos: int, maxScroll: int)
    ensures pos == 200 && maxScroll == 100 && pos > maxScroll
  {
    var page := new Dashboard({}, true, None);
    page.SetupCityNavigation(1000);
    page.ClickNext(1000);
    page.ClickNext(1000);
    maxScroll := 100;
    page.ClickPrev(maxScroll);
    pos := page.scrollPosition;
  }
}
