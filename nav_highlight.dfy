/**
 * Highlighting the navigation link of the section being read. On every
 * scroll the handler walks the `section[id]` elements in document order;
 * for each section with a matching `.nav-link[href="#id"]` whose pre-offset
 * interval holds the scroll position it clears every link and marks that
 * one, so the last such section wins.
 */
module NavHighlight {
  import opened Wrappers
  import opened Flags

  /** How far above a section its highlighting starts, in pixels. */
  const PRE_OFFSET := 100

  /**
   * A `section[id]`: its `offsetTop` and `offsetHeight`, and the index among
   * all `.nav-link`s of the first link pointing at it, if any.
   */
  datatype Section = Section(offsetTop: int, offsetHeight: int, link: Option<nat>)

  /** The scroll position lies in `(offsetTop - 100, offsetTop - 100 + offsetHeight]`. */
  predicate Contains(s: Section, scrollY: int)
  {
    var top := s.offsetTop - PRE_OFFSET;
    scrollY > top && scrollY <= top + s.offsetHeight
  }

  /** The section has a link and holds the scroll position: the handler acts on it. */
  predicate Hit(s: Section, scrollY: int)
  {
    s.link.Some? && Contains(s, scrollY)
  }

  /** Every link a section points at is one of the `n` nav links. */
  predicate LinksWithin(sections: seq<Section>, n: nat)
  {
    forall i :: 0 <= i < |sections| && sections[i].link.Some? ==> sections[i].link.value < n
  }

  /** The index of the last section the handler acts on, if there is one. */
  function LastHit(sections: seq<Section>, scrollY: int): (r: Option<nat>)
    ensures r.Some? ==> r.value < |sections| && Hit(sections[r.value], scrollY)
    ensures r.Some? ==> forall j :: r.value < j < |sections| ==> !Hit(sections[j], scrollY)
    ensures r.None? ==> forall j :: 0 <= j < |sections| ==> !Hit(sections[j], scrollY)
  {
    if sections == [] then None
    else if Hit(sections[|sections| - 1], scrollY) then Some(|sections| - 1)
    else LastHit(sections[..|sections| - 1], scrollY)
  }

  /** The link flags after one run of the handler. */
  function AfterHighlight(links: seq<bool>, sections: seq<Section>, scrollY: int): (r: seq<bool>)
    requires LinksWithin(sections, |links|)
    ensures |r| == |links|
  {
    match LastHit(sections, scrollY)
    case None => links
    case Some(k) => OnlyActive(|links|, sections[k].link.value)
  }

  /** The scroll handler, mirroring the loop over sections. */
  method Highlight(links: array<bool>, sections: seq<Section>, scrollY: int)
    requires LinksWithin(sections, links.Length)
    modifies links
    ensures links[..] == AfterHighlight(old(links[..]), sections, scrollY)
  {
    for i := 0 to |sections|
      invariant links[..] == AfterHighlight(old(links[..]), sections[..i], scrollY)
    {
      assert sections[..i + 1][..i] == sections[..i];
      var section := sections[i];
      if section.link.Some? {
        var top := section.offsetTop - PRE_OFFSET;
        if scrollY > top && scrollY <= top + section.offsetHeight {
          ClearAll(links);
          links[section.link.value] := true;
        }
      }
    }
    assert sections[..|sections|] == sections;
  }

  /**
   * When section `k` is hit and no later section is, exactly one link is
   * active afterwards: the link of section `k`.
   */
  lemma LastHitWins(links: seq<bool>, sections: seq<Section>, scrollY: int, k: nat)
    requires LinksWithin(sections, |links|)
    requires k < |sections| && Hit(sections[k], scrollY)
    requires forall j :: k < j < |sections| ==> !Hit(sections[j], scrollY)
    ensures ExactlyOne(AfterHighlight(links, sections, scrollY), sections[k].link.value)
  {
  }

  /** Whenever some section is hit, exactly one link is active afterwards. */
  lemma SomeHitActivatesOne(links: seq<bool>, sections: seq<Section>, scrollY: int, i: nat)
    requires LinksWithin(sections, |links|)
    requires i < |sections| && Hit(sections[i], scrollY)
    ensures exists l :: ExactlyOne(AfterHighlight(links, sections, scrollY), l)
  {
    var k := LastHit(sections, scrollY).value;
    LastHitWins(links, sections, scrollY, k);
  }

  /** When no linked section holds the scroll position, the links stay as they were. */
  lemma NoHitKeepsLinks(links: seq<bool>, sections: seq<Section>, scrollY: int)
    requires LinksWithin(sections, |links|)
    requires forall j :: 0 <= j < |sections| ==> !Hit(sections[j], scrollY)
    ensures AfterHighlight(links, sections, scrollY) == links
  {
  }
}
