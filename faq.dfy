/**
 * The FAQ accordion: every `.faq-item` carries an `active` class; clicking the
 * question of one item closes every item and then reopens the clicked one
 * unless it was the open one.
 */
module FaqAccordion {
  import opened Flags

  /**
   * The flags after a click on item `i`: all closed, then `i` reopened if it
   * was closed before the click.
   */
  function AfterClick(s: seq<bool>, i: nat): (r: seq<bool>)
    requires i < |s|
    ensures |r| == |s|
    ensures r[i] == !s[i]
    ensures forall j :: 0 <= j < |s| && j != i ==> !r[j]
  {
    if s[i] then Cleared(|s|) else OnlyActive(|s|, i)
  }

  /** The click handler of item `i`, over the `active` flags of all items. */
  method Click(active: array<bool>, i: nat)
    requires i < active.Length
    modifies active
    ensures active[..] == AfterClick(old(active[..]), i)
  {
    var wasActive := active[i];
    ClearAll(active);
    if !wasActive {
      active[i] := true;
    }
  }

  /** Whatever the flags were, after any click at most one item is open. */
  lemma ClickLeavesAtMostOne(s: seq<bool>, i: nat)
    requires i < |s|
    ensures AtMostOne(AfterClick(s, i))
  {
  }

  /** Clicking a closed item leaves it the only open one. */
  lemma ClickClosedOpensOnlyIt(s: seq<bool>, i: nat)
    requires i < |s| && !s[i]
    ensures ExactlyOne(AfterClick(s, i), i)
  {
  }

  /** Clicking the open item leaves no item open. */
  lemma ClickOpenClosesAll(s: seq<bool>, i: nat)
    requires i < |s| && s[i]
    ensures AfterClick(s, i) == Cleared(|s|)
  {
  }

  /**
   * Opening item `b` while item `a` is open closes `a` and opens `b`;
   * clicking `b` again closes it and leaves no item open.
   */
  lemma OpenAnotherThenCloseIt(s: seq<bool>, a: nat, b: nat)
    requires a < |s| && b < |s| && a != b
    requires ExactlyOne(s, a)
    ensures ExactlyOne(AfterClick(s, b), b)
    ensures AfterClick(AfterClick(s, b), b) == Cleared(|s|)
  {
  }

  /**
   * A click is undone by a second click on the same item when no other item
   * was open: the accordion toggles the clicked panel.
   */
  lemma ClickTwiceRestores(s: seq<bool>, i: nat)
    requires i < |s|
    requires forall j :: 0 <= j < |s| && j != i ==> !s[j]
    ensures AfterClick(AfterClick(s, i), i) == s
  {
  }
}
