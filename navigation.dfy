/**
 * Highlighting the navigation link of the section in view (script.js:214-232).
 * On every scroll event each section, in document order, switches the `active`
 * class of its navigation link on when the scroll offset lies inside the section
 * (with a 100-pixel allowance for the fixed header) and off otherwise. A section
 * without a matching link is skipped. The links' `active` flags are an array
 * indexed by link; a section names its link by index, or by nothing.
 */
module Navigation {

  datatype Option<T> = None | Some(value: T)

  /** How far above a section's top the highlight already starts. */
  const HeaderAllowance := 100

  /** `offsetTop`, `offsetHeight`, and the index of the `.nav-link` for the section's id, if any. */
  datatype Section = Section(top: int, height: int, link: Option<nat>)

  /** `scrollY > sectionTop && scrollY <= sectionTop + sectionHeight`, with `sectionTop = offsetTop - 100`. */
  predicate InSection(y: int, sec: Section) {
    sec.top - HeaderAllowance < y <= sec.top - HeaderAllowance + sec.height
  }

  /** Every link a section names exists. */
  predicate LinksIn(secs: seq<Section>, n: nat) {
    forall i :: 0 <= i < |secs| && secs[i].link.Some? ==> secs[i].link.value < n
  }

  /** The body of the `forEach` callback for one section. */
  function Step(y: int, sec: Section, active: seq<bool>): (r: seq<bool>)
    requires sec.link.Some? ==> sec.link.value < |active|
    ensures |r| == |active|
    ensures forall j :: 0 <= j < |active| && sec.link != Some(j) ==> r[j] == active[j]
    ensures sec.link.Some? ==> r[sec.link.value] == InSection(y, sec)
  {
    match sec.link
    case None => active
    case Some(k) => active[k := InSection(y, sec)]
  }

  /** The link flags after the callback ran over `secs` in order, starting from `active`. */
  function Highlighted(y: int, secs: seq<Section>, active: seq<bool>): (r: seq<bool>)
    requires LinksIn(secs, |active|)
    ensures |r| == |active|
    decreases |secs|
  {
    if |secs| == 0 then active
    else
      var last := secs[|secs| - 1];
      Step(y, last, Highlighted(y, secs[..|secs| - 1], active))
  }

  /** `highlightNavigation()` at scroll offset `scrollY`. */
  method HighlightNavigation(scrollY: int, sections: seq<Section>, links: array<bool>)
    requires LinksIn(sections, links.Length)
    modifies links
    ensures links[..] == Highlighted(scrollY, sections, old(links[..]))
  {
    var i := 0;
    while i < |sections|
      invariant 0 <= i <= |sections|
      invariant links.Length == |old(links[..])|
      invariant LinksIn(sections[..i], links.Length)
      invariant links[..] == Highlighted(scrollY, sections[..i], old(links[..]))
    {
      var section := sections[i];
      assert sections[..i + 1][..i] == sections[..i];
      match section.link {
        case None =>
        case Some(k) =>
          if scrollY > section.top - HeaderAllowance && scrollY <= section.top - HeaderAllowance + section.height {
            links[k] := true;
          } else {
            links[k] := false;
          }
      }
      i := i + 1;
    }
    assert sections[..i] == sections;
  }

  /** Section `i` is the last one in `secs` that names link `k`. */
  ghost predicate LastFor(secs: seq<Section>, k: nat, i: int) {
    0 <= i < |secs| && secs[i].link == Some(k)
    && forall j :: i < j < |secs| ==> secs[j].link != Some(k)
  }

  /** After highlighting, a link that no section names keeps its flag. */
  lemma {:induction false} HighlightedUnnamed(y: int, secs: seq<Section>, active: seq<bool>, k: nat)
    requires LinksIn(secs, |active|) && k < |active|
    requires forall i :: 0 <= i < |secs| ==> secs[i].link != Some(k)
    ensures Highlighted(y, secs, active)[k] == active[k]
    decreases |secs|
  {
    if |secs| > 0 {
      var n := |secs| - 1;
      var init := secs[..n];
      assert LinksIn(init, |active|);
      assert forall i :: 0 <= i < n ==> init[i].link != Some(k);
      HighlightedUnnamed(y, init, active, k);
      assert Highlighted(y, secs, active) == Step(y, secs[n], Highlighted(y, init, active));
    }
  }

  /**
   * After highlighting, a link that some section names is active exactly when
   * the last section naming it holds the scroll offset.
   */
  lemma {:induction false} HighlightedByLast(y: int, secs: seq<Section>, active: seq<bool>, k: nat, i: int)
    requires LinksIn(secs, |active|) && k < |active|
    requires LastFor(secs, k, i)
    ensures Highlighted(y, secs, active)[k] == InSection(y, secs[i])
    decreases |secs|
  {
    var n := |secs| - 1;
    var init := secs[..n];
    assert LinksIn(init, |active|);
    assert Highlighted(y, secs, active) == Step(y, secs[n], Highlighted(y, init, active));
    if i < n {
      assert LastFor(init, k, i);
      HighlightedByLast(y, init, active, k, i);
    }
  }

  /** Sections follow one another down the page without overlapping. */
  predicate Stacked(secs: seq<Section>) {
    forall i, j :: 0 <= i < j < |secs| ==> secs[i].top + secs[i].height <= secs[j].top
  }

  /** No two sections name the same link. */
  predicate DistinctLinks(secs: seq<Section>) {
    forall i, j :: 0 <= i < j < |secs| && secs[i].link.Some? ==> secs[i].link != secs[j].link
  }

  /** With distinct links, a section's link is active exactly when the section holds the scroll offset. */
  lemma HighlightedIffInView(y: int, secs: seq<Section>, active: seq<bool>, i: int)
    requires LinksIn(secs, |active|) && DistinctLinks(secs)
    requires 0 <= i < |secs| && secs[i].link.Some?
    ensures Highlighted(y, secs, active)[secs[i].link.value] <==> InSection(y, secs[i])
  {
    LastOwner(secs, i);
    HighlightedByLast(y, secs, active, secs[i].link.value, i);
  }

  /**
   * When the sections are stacked and name distinct links, at most one of the
   * links they name is active after highlighting, and it is the link of the
   * section that holds the scroll offset.
   */
  lemma AtMostOneHighlighted(y: int, secs: seq<Section>, active: seq<bool>, i1: int, i2: int)
    requires LinksIn(secs, |active|) && Stacked(secs) && DistinctLinks(secs)
    requires 0 <= i1 < |secs| && secs[i1].link.Some?
    requires 0 <= i2 < |secs| && secs[i2].link.Some?
    requires Highlighted(y, secs, active)[secs[i1].link.value]
    requires Highlighted(y, secs, active)[secs[i2].link.value]
    ensures i1 == i2 && InSection(y, secs[i1])
  {
    HighlightedIffInView(y, secs, active, i1);
    HighlightedIffInView(y, secs, active, i2);
  }

  /** With distinct links, the one section naming a link is the last to name it. */
  lemma LastOwner(secs: seq<Section>, i: int)
    requires DistinctLinks(secs) && 0 <= i < |secs| && secs[i].link.Some?
    ensures LastFor(secs, secs[i].link.value, i)
  {
    forall j | i < j < |secs| ensures secs[j].link != secs[i].link {
    }
  }
}
