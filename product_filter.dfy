/**
 * The product filter: clicking a `.filter-btn` makes it the only active
 * button and shows exactly the `.product-card`s whose `data-category` equals
 * the button's `data-filter`, or every card when that filter is "all".
 *
 * A `data-*` attribute that is absent reads as `undefined`, modelled as
 * `None`; a strict comparison of two absent attributes is true.
 */
module ProductFilter {
  import opened Wrappers
  import opened Flags

  const ALL := "all"
  const DISPLAY_BLOCK := "block"
  const DISPLAY_NONE := "none"
  const FADE_IN_UP := "fadeInUp 0.3s ease"

  /** The inline style of a card that the filter touches. */
  datatype CardStyle = CardStyle(display: string, animation: string)

  /** The visibility rule for one card. */
  predicate CardVisible(filter: Option<string>, category: Option<string>)
  {
    filter == Some(ALL) || category == filter
  }

  /** The style a card gets: shown and animated, or hidden with its animation left as it was. */
  function Restyle(card: CardStyle, visible: bool): (r: CardStyle)
    ensures r.display == DISPLAY_BLOCK <==> visible
    ensures r.display == DISPLAY_NONE <==> !visible
    ensures visible ==> r.animation == FADE_IN_UP
    ensures !visible ==> r.animation == card.animation
  {
    if visible then CardStyle(DISPLAY_BLOCK, FADE_IN_UP)
    else card.(display := DISPLAY_NONE)
  }

  /** Every card restyled for `filter`, in document order. */
  function Filtered(cards: seq<CardStyle>, categories: seq<Option<string>>, filter: Option<string>): (r: seq<CardStyle>)
    requires |categories| == |cards|
    ensures |r| == |cards|
  {
    seq(|cards|, k requires 0 <= k < |cards| => Restyle(cards[k], CardVisible(filter, categories[k])))
  }

  /** The click handler of button `b`. */
  method Click(buttons: array<bool>, filters: seq<Option<string>>, b: nat,
               cards: array<CardStyle>, categories: seq<Option<string>>)
    requires |filters| == buttons.Length && b < buttons.Length
    requires |categories| == cards.Length
    modifies buttons, cards
    ensures buttons[..] == OnlyActive(buttons.Length, b)
    ensures cards[..] == Filtered(old(cards[..]), categories, filters[b])
  {
    ClearAll(buttons);
    buttons[b] := true;
    var filter := filters[b];
    for k := 0 to cards.Length
      modifies cards
      invariant forall m :: 0 <= m < k ==> cards[m] == Restyle(old(cards[m]), CardVisible(filter, categories[m]))
      invariant forall m :: k <= m < cards.Length ==> cards[m] == old(cards[m])
    {
      if filter == Some(ALL) || categories[k] == filter {
        cards[k] := CardStyle(DISPLAY_BLOCK, FADE_IN_UP);
      } else {
        cards[k] := cards[k].(display := DISPLAY_NONE);
      }
    }
  }

  /** After a click a card is displayed exactly when the rule admits it, and hidden otherwise. */
  lemma ShownIffVisible(cards: seq<CardStyle>, categories: seq<Option<string>>, filter: Option<string>, k: nat)
    requires |categories| == |cards| && k < |cards|
    ensures Filtered(cards, categories, filter)[k].display == DISPLAY_BLOCK
            <==> (filter == Some(ALL) || categories[k] == filter)
    ensures Filtered(cards, categories, filter)[k].display == DISPLAY_NONE
            <==> !(filter == Some(ALL) || categories[k] == filter)
  {
  }

  /** The "all" filter shows every card. */
  lemma AllShowsEveryCard(cards: seq<CardStyle>, categories: seq<Option<string>>)
    requires |categories| == |cards|
    ensures forall k :: 0 <= k < |cards| ==> Filtered(cards, categories, Some(ALL))[k].display == DISPLAY_BLOCK
  {
  }

  /** Any other named filter shows exactly the cards of that category. */
  lemma NamedFilterShowsItsCategory(cards: seq<CardStyle>, categories: seq<Option<string>>, name: string)
    requires |categories| == |cards| && name != ALL
    ensures forall k :: 0 <= k < |cards| ==>
      (Filtered(cards, categories, Some(name))[k].display == DISPLAY_BLOCK <==> categories[k] == Some(name))
  {
  }

  /** Clicking the same button twice leaves the cards as the first click left them. */
  lemma FilterIdempotent(cards: seq<CardStyle>, categories: seq<Option<string>>, filter: Option<string>)
    requires |categories| == |cards|
    ensures Filtered(Filtered(cards, categories, filter), categories, filter) == Filtered(cards, categories, filter)
  {
  }

  /** The last click decides: a second filter's result does not depend on the first one's. */
  lemma LastClickDecides(cards: seq<CardStyle>, categories: seq<Option<string>>, f1: Option<string>, f2: Option<string>)
    requires |categories| == |cards|
    ensures forall k :: 0 <= k < |cards| ==>
      Filtered(Filtered(cards, categories, f1), categories, f2)[k].display == Filtered(cards, categories, f2)[k].display
  {
  }
}
