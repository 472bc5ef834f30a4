/**
 * The breakpoint oracle of js/wpvs-detect-screen-size/wpvs-detect-screen-size.js.
 * The element holds four probe elements, one per screen size, whose CSS media
 * queries hide all but the matching ones; which of them are displayed is an
 * input here (the result of `getComputedStyle(...).display != "none"`).
 */
module ScreenSize {
  import opened JsString

  /** Which of the four probes the browser currently displays. */
  datatype Probes = Probes(phone: bool, tablet: bool, screen: bool, hires: bool)

  /** The sizes in increasing order (the `ordering` of `compareScreenSize`). */
  const Ordering: seq<string> := ["phone", "tablet", "screen", "hires"]

  const Unknown: string := "unknown"

  /** Whether the probe of the size at position `i` of Ordering is displayed. */
  predicate Displayed(p: Probes, i: nat)
  {
    if i == 0 then p.phone else if i == 1 then p.tablet else if i == 2 then p.screen else if i == 3 then p.hires else false
  }

  /** `ordering.indexOf(name)`, -1 for a name that is not one of the four. */
  function IndexIn(name: string): (r: int)
    ensures -1 <= r < |Ordering|
    ensures r >= 0 ==> Ordering[r] == name
    ensures r < 0 <==> name !in Ordering
  {
    if name == Ordering[0] then 0
    else if name == Ordering[1] then 1
    else if name == Ordering[2] then 2
    else if name == Ordering[3] then 3
    else -1
  }

  /**
   * The `screenSize` getter: the first size, in the order phone, tablet, screen,
   * hires, whose probe is displayed, and "unknown" when none is.
   */
  function CurrentSize(p: Probes): (r: string)
    ensures r in Ordering || r == Unknown
    ensures r in Ordering ==> Displayed(p, IndexIn(r)) && forall j :: 0 <= j < IndexIn(r) ==> !Displayed(p, j)
    ensures r == Unknown <==> forall j :: 0 <= j < |Ordering| ==> !Displayed(p, j)
  {
    if p.phone then "phone"
    else if p.tablet then "tablet"
    else if p.screen then "screen"
    else if p.hires then "hires"
    else Unknown
  }

  /**
   * `compareScreenSize(given)` with `current` the element's current size: the
   * order of the two sizes, and 0 when either is not one of the four names.
   */
  function CompareScreenSize(current: string, given: string): (r: int)
    ensures r == -1 || r == 0 || r == 1
    ensures current !in Ordering || given !in Ordering ==> r == 0
    ensures current in Ordering && given in Ordering ==>
      && (r == -1 <==> IndexIn(current) < IndexIn(given))
      && (r == 0 <==> current == given)
      && (r == 1 <==> IndexIn(current) > IndexIn(given))
  {
    var currentIndex := IndexIn(current);
    var givenIndex := IndexIn(given);
    if currentIndex < 0 || givenIndex < 0 || currentIndex == givenIndex then 0
    else if currentIndex < givenIndex then -1
    else 1
  }

  /** Swapping the two sizes negates the comparison. */
  lemma CompareAntisymmetric(a: string, b: string)
    ensures CompareScreenSize(a, b) == -CompareScreenSize(b, a)
  {
  }

  /** Among the four sizes the comparison is a strict total order. */
  lemma CompareTransitive(a: string, b: string, c: string)
    requires CompareScreenSize(a, b) == -1 && CompareScreenSize(b, c) == -1
    ensures CompareScreenSize(a, c) == -1
  {
  }

  /** The current size "unknown" compares equal to everything. */
  lemma UnknownComparesEqual(p: Probes, given: string)
    requires CurrentSize(p) == Unknown
    ensures CompareScreenSize(CurrentSize(p), given) == 0
  {
  }

  /**
   * The element's recorded state: `_prevScreenSize`, the `data-screen-size`
   * attribute, and the sizes carried by the "screen-size-changed" events it has
   * raised so far, in order.
   */
  class DetectScreenSizeElement {
    var prevScreenSize: Option<string>
    var dataScreenSize: Option<string>
    var events: seq<string>

    /**
     * Once rendered, the recorded size and the attribute agree, and the last
     * event raised carries that size.
     */
    ghost predicate Valid()
      reads this
    {
      && prevScreenSize == dataScreenSize
      && (prevScreenSize.Some? ==> |events| > 0 && events[|events| - 1] == prevScreenSize.value)
    }

    constructor()
      ensures Valid()
      ensures prevScreenSize == None && dataScreenSize == None && events == []
    {
      prevScreenSize := None;
      dataScreenSize := None;
      events := [];
    }

    /** `_render`: raises the event for the current size and records it. */
    method Render(p: Probes)
      requires Valid()
      modifies this
      ensures Valid()
      ensures events == old(events) + [CurrentSize(p)]
      ensures prevScreenSize == Some(CurrentSize(p)) && dataScreenSize == Some(CurrentSize(p))
    {
      events := events + [CurrentSize(p)];
      prevScreenSize := Some(CurrentSize(p));
      dataScreenSize := Some(CurrentSize(p));
    }

    /**
     * The resize listener: nothing happens while the size is the recorded one;
     * otherwise one event is raised for the new size and the size is recorded.
     */
    method OnResize(p: Probes)
      requires Valid()
      modifies this
      ensures Valid()
      ensures Some(CurrentSize(p)) == old(prevScreenSize) ==>
        events == old(events) && prevScreenSize == old(prevScreenSize) && dataScreenSize == old(dataScreenSize)
      ensures Some(CurrentSize(p)) != old(prevScreenSize) ==>
        && events == old(events) + [CurrentSize(p)]
        && prevScreenSize == Some(CurrentSize(p)) && dataScreenSize == Some(CurrentSize(p))
    {
      if Some(CurrentSize(p)) == prevScreenSize {
        return;
      }
      events := events + [CurrentSize(p)];
      prevScreenSize := Some(CurrentSize(p));
      dataScreenSize := Some(CurrentSize(p));
    }
  }
}
