/** The page interactions of js/main.js: the mobile navigation toggle, the header's scroll
    styling, the certificate modal, the FAQ accordion, the anchor-link scroll offset, the
    project filter and the one-way reveal of animated elements. Browser geometry is given as
    numbers: positions and scroll offsets as reals, window and element heights as integers. */
module PageScripts {
  import opened Wrappers

  // ---------------------------------------------------------------------------------------
  // Mobile navigation
  // ---------------------------------------------------------------------------------------

  /** The `.nav-links` list; `active` is its "active" class, the open mobile menu. */
  class NavMenu {
    var active: bool

    constructor (active: bool)
      ensures this.active == active
    {
      this.active := active;
    }

    /** The hamburger toggles the menu. */
    method ClickHamburger()
      modifies this
      ensures active == !old(active)
    {
      active := !active;
    }

    /** Any navigation link closes the menu, whatever its state, so repeating it changes nothing. */
    method ClickLink()
      modifies this
      ensures !active
    {
      active := false;
    }
  }

  // ---------------------------------------------------------------------------------------
  // Header styling
  // ---------------------------------------------------------------------------------------

  const ScrollThreshold: real := 100.0

  const ScrolledBackground := "rgba(255, 255, 255, 0.98)"
  const ScrolledShadow := "0 5px 20px rgba(0, 0, 0, 0.1)"
  const DefaultBackground := "rgba(255, 255, 255, 0.95)"
  const DefaultShadow := "0 2px 10px rgba(0, 0, 0, 0.1)"

  /** The `header` element's inline background and shadow. */
  class Header {
    var background: string
    var boxShadow: string

    constructor ()
      ensures background == "" && boxShadow == ""
    {
      background, boxShadow := "", "";
    }

    /** The scroll handler: the scrolled style strictly past the threshold, the default style
        at the threshold and below it. */
    method OnScroll(scrollY: real)
      modifies this
      ensures scrollY > ScrollThreshold ==> background == ScrolledBackground && boxShadow == ScrolledShadow
      ensures scrollY <= ScrollThreshold ==> background == DefaultBackground && boxShadow == DefaultShadow
    {
      if scrollY > ScrollThreshold {
        background := ScrolledBackground;
        boxShadow := ScrolledShadow;
      } else {
        background := DefaultBackground;
        boxShadow := DefaultShadow;
      }
    }
  }

  // ---------------------------------------------------------------------------------------
  // Certificate modal
  // ---------------------------------------------------------------------------------------

  /** An element's inline `style.display`: not set, "block" or "none". */
  datatype Display = Unset | Block | Hidden

  /** What a click on the window landed on: the modal element itself (its backdrop, outside
      the content), or anything else. */
  datatype ClickTarget = ModalBackdrop | OtherElement

  /** The `#certificateModal` element together with its embedded `#pdfViewer`. */
  class CertificateModal {
    var display: Display
    var viewerSrc: string

    constructor ()
      ensures display == Unset && viewerSrc == ""
    {
      display, viewerSrc := Unset, "";
    }

    /** `viewCertificate(url)`: load the document and show the modal. */
    method ViewCertificate(url: string)
      modifies this
      ensures viewerSrc == url && display == Block
    {
      viewerSrc := url;
      display := Block;
    }

    /** The close control hides the modal. */
    method ClickClose()
      modifies this
      ensures display == Hidden && viewerSrc == old(viewerSrc)
    {
      display := Hidden;
    }

    /** A click anywhere: only a click on the backdrop hides the modal. */
    method ClickWindow(target: ClickTarget)
      modifies this
      ensures target == ModalBackdrop ==> display == Hidden
      ensures target != ModalBackdrop ==> display == old(display)
      ensures viewerSrc == old(viewerSrc)
    {
      if target == ModalBackdrop {
        display := Hidden;
      }
    }
  }

  // ---------------------------------------------------------------------------------------
  // FAQ accordion
  // ---------------------------------------------------------------------------------------

  /** No two FAQ items are open at once. */
  ghost predicate AtMostOneActive(s: seq<bool>)
  {
    forall j, k :: 0 <= j < k < |s| && s[j] ==> !s[k]
  }

  /** The items' "active" flags after a click on the question of item `i`: item `i` flipped,
      every other item closed. */
  function AfterFaqClick(s: seq<bool>, i: nat): (r: seq<bool>)
    requires i < |s|
    ensures |r| == |s| && r[i] == !s[i]
    ensures forall j :: 0 <= j < |s| && j != i ==> !r[j]
  {
    seq(|s|, j requires 0 <= j < |s| => j == i && !s[i])
  }

  /** The single-open policy holds after every click, whatever the state before it. */
  lemma FaqClickKeepsOneOpen(s: seq<bool>, i: nat)
    requires i < |s|
    ensures AtMostOneActive(AfterFaqClick(s, i))
    ensures AfterFaqClick(s, i)[i] <==> !s[i]
  {
  }

  /** Clicking the open item leaves every item closed. */
  lemma ClickOpenItemClosesAll(s: seq<bool>, i: nat)
    requires i < |s| && s[i]
    ensures forall j :: 0 <= j < |s| ==> !AfterFaqClick(s, i)[j]
  {
  }

  /** The `.faq-item` elements' "active" flags, in document order. */
  class FaqAccordion {
    const active: array<bool>

    constructor (n: nat)
      ensures fresh(active) && active.Length == n
      ensures forall k :: 0 <= k < n ==> !active[k]
    {
      active := new bool[n](_ => false);
    }

    /** The click handler of item `i`'s question: close every other item, then toggle item `i`. */
    method ClickQuestion(i: nat)
      requires i < active.Length
      modifies active
      ensures active[..] == AfterFaqClick(old(active[..]), i)
    {
      for j := 0 to active.Length
        invariant forall k :: 0 <= k < active.Length ==>
          active[k] == if k < j && k != i then false else old(active[k])
      {
        if j != i {
          active[j] := false;
        }
      }
      active[i] := !active[i];
    }
  }

  // ---------------------------------------------------------------------------------------
  // Smooth anchor scrolling
  // ---------------------------------------------------------------------------------------

  /** Where a click on an in-page link with attribute `href` scrolls to. `targetTop` is the
      viewport top of the element the link selects, when there is one. A bare "#" and a link
      whose target is missing cause no scroll. */
  function AnchorScrollTarget(href: string, targetTop: Option<real>, pageYOffset: real, headerHeight: int): (r: Option<real>)
    ensures r.Some? <==> href != "#" && targetTop.Some?
    ensures r.Some? ==> r.value + headerHeight as real == targetTop.value + pageYOffset
  {
    if href == "#" then None
    else match targetTop
      case None => None
      case Some(top) => Some(top + pageYOffset - headerHeight as real)
  }

  /** An element's position in the document: its viewport top plus the page's scroll offset.
      Scrolling moves both and leaves this fixed. */
  function DocumentTop(viewportTop: real, pageYOffset: real): real
  {
    viewportTop + pageYOffset
  }

  /** The viewport top of the element at document position `docTop` once the window is
      scrolled to offset `y`. */
  function ViewportTopAt(docTop: real, y: real): (t: real)
    ensures DocumentTop(t, y) == docTop
  {
    docTop - y
  }

  /** Once the window is scrolled to the computed offset, the target's top sits exactly at the
      bottom edge of the header. */
  lemma AnchorTargetBelowHeader(href: string, top: real, pageYOffset: real, headerHeight: int)
    requires href != "#"
    ensures var r := AnchorScrollTarget(href, Some(top), pageYOffset, headerHeight);
            r.Some? && ViewportTopAt(DocumentTop(top, pageYOffset), r.value) == headerHeight as real
  {
  }

  /** Clicking the same link again once the page has arrived targets the offset it is already
      at: the page does not move a second time. */
  lemma AnchorClickIsIdempotent(href: string, top: real, pageYOffset: real, headerHeight: int)
    requires href != "#"
    ensures var r := AnchorScrollTarget(href, Some(top), pageYOffset, headerHeight);
            r.Some? &&
            var arrivedTop := ViewportTopAt(DocumentTop(top, pageYOffset), r.value);
            AnchorScrollTarget(href, Some(arrivedTop), r.value, headerHeight) == r
  {
  }

  /** The target depends only on where the element sits in the document, not on how far the
      page was scrolled when the link was clicked. */
  lemma AnchorTargetIndependentOfScroll(href: string, top1: real, offset1: real,
                                        top2: real, offset2: real, headerHeight: int)
    requires DocumentTop(top1, offset1) == DocumentTop(top2, offset2)
    ensures AnchorScrollTarget(href, Some(top1), offset1, headerHeight) ==
            AnchorScrollTarget(href, Some(top2), offset2, headerHeight)
  {
  }

  // ---------------------------------------------------------------------------------------
  // Project filter
  // ---------------------------------------------------------------------------------------

  /** A `.project-card`: its class list and its inline display. */
  class ProjectCard {
    const classes: set<string>
    var display: Display

    constructor (classes: set<string>)
      ensures this.classes == classes && display == Unset
    {
      this.classes := classes;
      display := Unset;
    }
  }

  /** Filter "all" shows every card; any other filter shows the cards carrying it as a class. */
  predicate ShownBy(filter: string, classes: set<string>)
  {
    filter == "all" || filter in classes
  }

  /** `projectFilter(filter)`: every card ends shown or hidden, shown exactly when the filter
      selects it. */
  method ProjectFilter(cards: seq<ProjectCard>, filter: string)
    modifies set c | c in cards
    ensures forall c :: c in cards ==> c.display == if ShownBy(filter, c.classes) then Block else Hidden
    ensures forall c :: c in cards ==> c.display != Unset
    ensures filter == "all" ==> forall c :: c in cards ==> c.display == Block
  {
    for i := 0 to |cards|
      invariant forall c :: c in cards ==>
        c.display == if c in cards[..i] then (if ShownBy(filter, c.classes) then Block else Hidden) else old(c.display)
    {
      if filter == "all" || filter in cards[i].classes {
        cards[i].display := Block;
      } else {
        cards[i].display := Hidden;
      }
    }
    assert cards[..|cards|] == cards;
  }

  // ---------------------------------------------------------------------------------------
  // Reveal on scroll
  // ---------------------------------------------------------------------------------------

  /** How far inside the viewport an element's top must be before it is revealed. */
  const RevealMargin := 150

  /** An element whose viewport top is `top` is in view in a window `innerHeight` high. */
  predicate InView(top: real, innerHeight: int)
  {
    top < (innerHeight - RevealMargin) as real
  }

  /** The revealed flags after one run of `animateOnScroll` with these element tops. */
  function RevealStep(revealed: seq<bool>, tops: seq<real>, innerHeight: int): (r: seq<bool>)
    requires |tops| == |revealed|
    ensures |r| == |revealed|
    ensures forall k :: 0 <= k < |r| ==> (r[k] <==> revealed[k] || InView(tops[k], innerHeight))
  {
    seq(|revealed|, k requires 0 <= k < |revealed| => revealed[k] || InView(tops[k], innerHeight))
  }

  /** The geometry one scroll event sees: each element's viewport top, and the window height. */
  datatype Viewport = Viewport(tops: seq<real>, innerHeight: int)

  /** Every viewport in `scrolls` describes `n` elements. */
  predicate Describes(scrolls: seq<Viewport>, n: nat)
  {
    forall e :: 0 <= e < |scrolls| ==> |scrolls[e].tops| == n
  }

  /** The revealed flags after a series of scroll events. */
  function RevealAfter(revealed: seq<bool>, scrolls: seq<Viewport>): seq<bool>
    requires Describes(scrolls, |revealed|)
    decreases |scrolls|
  {
    if scrolls == [] then revealed
    else RevealAfter(RevealStep(revealed, scrolls[0].tops, scrolls[0].innerHeight), scrolls[1..])
  }

  /** Reveal is one-way: after any series of scroll events an element is revealed exactly when
      it was revealed before or some event saw it in view, so the revealed set only grows. */
  lemma {:induction false} RevealedOnlyGrows(revealed: seq<bool>, scrolls: seq<Viewport>, k: nat)
    requires Describes(scrolls, |revealed|) && k < |revealed|
    decreases |scrolls|
    ensures |RevealAfter(revealed, scrolls)| == |revealed|
    ensures RevealAfter(revealed, scrolls)[k] <==>
      revealed[k] || exists e :: 0 <= e < |scrolls| && InView(scrolls[e].tops[k], scrolls[e].innerHeight)
  {
    if scrolls != [] {
      var next := RevealStep(revealed, scrolls[0].tops, scrolls[0].innerHeight);
      var rest := scrolls[1..];
      assert Describes(rest, |next|);
      RevealedOnlyGrows(next, rest, k);
      if exists e :: 0 <= e < |rest| && InView(rest[e].tops[k], rest[e].innerHeight) {
        var e :| 0 <= e < |rest| && InView(rest[e].tops[k], rest[e].innerHeight);
        assert rest[e] == scrolls[e + 1];
      }
    }
  }

  /** The animated elements (skill items, project cards, certification cards, timeline items)
      by document order; `revealed[k]` says element `k` has full opacity and no offset. */
  class RevealAnimator {
    const revealed: array<bool>

    constructor (n: nat)
      ensures fresh(revealed) && revealed.Length == n
    {
      revealed := new bool[n];
    }

    /** The load handler: every element starts transparent and offset. */
    method HideAll()
      modifies revealed
      ensures forall k :: 0 <= k < revealed.Length ==> !revealed[k]
    {
      for k := 0 to revealed.Length
        invariant forall j :: 0 <= j < k ==> !revealed[j]
      {
        revealed[k] := false;
      }
    }

    /** `animateOnScroll`: reveal every element now in view and leave the others as they were. */
    method AnimateOnScroll(tops: seq<real>, innerHeight: int)
      requires |tops| == revealed.Length
      modifies revealed
      ensures revealed[..] == RevealStep(old(revealed[..]), tops, innerHeight)
    {
      for k := 0 to revealed.Length
        invariant forall j :: 0 <= j < revealed.Length ==>
          revealed[j] == if j < k then old(revealed[j]) || InView(tops[j], innerHeight) else old(revealed[j])
      {
        if tops[k] < (innerHeight - RevealMargin) as real {
          revealed[k] := true;
        }
      }
    }
  }
}
