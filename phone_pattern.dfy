/**
 * The WhatsApp number pattern
 *   ^[\+]?[(]?[0-9]{3}[)]?[-\s\.]?[0-9]{3}[-\s\.]?[0-9]{4,6}$
 * as a list of items, each a character class repeated between a least and a
 * greatest number of times. `Matches` is what a backtracking regular
 * expression engine accepts; `GreedyMatch` is a single left-to-right pass that
 * takes as many characters as each item allows, and the two agree on every
 * pattern whose optional parts cannot be confused with what follows them.
 */
module PhonePattern {
  import opened JsText

  datatype CharClass = Plus | OpenParen | CloseParen | Digit | Separator

  /** Membership of a character in a class; `Separator` is `[-\s\.]`. */
  predicate InClass(c: char, cls: CharClass)
  {
    match cls
    case Plus => c == '+'
    case OpenParen => c == '('
    case CloseParen => c == ')'
    case Digit => '0' <= c <= '9'
    case Separator => c == '-' || c == '.' || IsWhitespace(c)
  }

  /** No character belongs to two different classes. */
  lemma ClassesDisjoint(c: char, a: CharClass, b: CharClass)
    requires InClass(c, a) && InClass(c, b)
    ensures a == b
  {
  }

  /** A character class repeated `min` to `max` times. */
  datatype Item = Item(cls: CharClass, min: nat, max: nat)

  /** The pattern the order form checks, item by item, anchored at both ends. */
  const PHONE: seq<Item> := [
    Item(Plus, 0, 1), Item(OpenParen, 0, 1), Item(Digit, 3, 3), Item(CloseParen, 0, 1),
    Item(Separator, 0, 1), Item(Digit, 3, 3), Item(Separator, 0, 1), Item(Digit, 4, 6)
  ]

  predicate AllIn(s: string, cls: CharClass)
  {
    forall i :: 0 <= i < |s| ==> InClass(s[i], cls)
  }

  /** The whole of `s` splits into consecutive pieces, one per item, each within its item's bounds. */
  ghost predicate Matches(items: seq<Item>, s: string)
    decreases |items|
  {
    if items == [] then s == []
    else exists k :: items[0].min <= k <= items[0].max && k <= |s|
                     && AllIn(s[..k], items[0].cls) && Matches(items[1..], s[k..])
  }

  /** The length of the longest prefix of `s`, at most `limit` long, inside `cls`. */
  function Run(s: string, cls: CharClass, limit: nat): (r: nat)
    ensures r <= limit && r <= |s|
    ensures AllIn(s[..r], cls)
    ensures r < limit && r < |s| ==> !InClass(s[r], cls)
  {
    if limit == 0 || s == [] || !InClass(s[0], cls) then 0
    else 1 + Run(s[1..], cls, limit - 1)
  }

  /** Every prefix inside the class and within the limit is at most the run. */
  lemma RunIsLongest(s: string, cls: CharClass, limit: nat, k: nat)
    requires k <= limit && k <= |s| && AllIn(s[..k], cls)
    ensures k <= Run(s, cls, limit)
  {
  }

  /** The one-pass matcher. */
  function GreedyMatch(items: seq<Item>, s: string): bool
    decreases |items|
  {
    if items == [] then s == []
    else
      var g := Run(s, items[0].cls, items[0].max);
      items[0].min <= g && GreedyMatch(items[1..], s[g..])
  }

  /** No item of `items` up to and including the first mandatory one uses `cls`. */
  predicate AbsentUntilMandatory(items: seq<Item>, cls: CharClass)
    decreases |items|
  {
    items == [] || (items[0].cls != cls && (items[0].min == 0 ==> AbsentUntilMandatory(items[1..], cls)))
  }

  /**
   * Every item that may take a variable number of characters uses a class
   * that the items able to follow it directly do not use.
   */
  predicate Deterministic(items: seq<Item>)
    decreases |items|
  {
    items == []
    || ((items[0].min < items[0].max ==> AbsentUntilMandatory(items[1..], items[0].cls))
        && Deterministic(items[1..]))
  }

  /** Items that cannot consume a character of `cls` first cannot match text that starts with one. */
  lemma {:induction false} NoMatchStartingIn(items: seq<Item>, s: string, cls: CharClass)
    requires s != [] && InClass(s[0], cls) && AbsentUntilMandatory(items, cls)
    ensures !Matches(items, s)
    decreases |items|
  {
    if items != [] && Matches(items, s) {
      var k :| items[0].min <= k <= items[0].max && k <= |s|
               && AllIn(s[..k], items[0].cls) && Matches(items[1..], s[k..]);
      if k > 0 {
        assert s[..k][0] == s[0];
        ClassesDisjoint(s[0], cls, items[0].cls);
      } else {
        assert s[k..] == s;
        NoMatchStartingIn(items[1..], s, cls);
      }
    }
  }

  /** What the one-pass matcher accepts, the pattern matches: its own run lengths split the text. */
  lemma {:induction false} GreedySound(items: seq<Item>, s: string)
    requires GreedyMatch(items, s)
    ensures Matches(items, s)
    decreases |items|
  {
    if items != [] {
      var g := Run(s, items[0].cls, items[0].max);
      GreedySound(items[1..], s[g..]);
    }
  }

  /** What the pattern matches, the one-pass matcher accepts, provided the pattern is deterministic. */
  lemma {:induction false} GreedyComplete(items: seq<Item>, s: string)
    requires Deterministic(items) && Matches(items, s)
    ensures GreedyMatch(items, s)
    decreases |items|
  {
    if items != [] {
      var it := items[0];
      var g := Run(s, it.cls, it.max);
      var k :| it.min <= k <= it.max && k <= |s|
               && AllIn(s[..k], it.cls) && Matches(items[1..], s[k..]);
      RunIsLongest(s, it.cls, it.max, k);
      if k < g {
        assert s[..g][k] == s[k] == s[k..][0];
        NoMatchStartingIn(items[1..], s[k..], it.cls);
      }
      assert k == g;
      GreedyComplete(items[1..], s[g..]);
    }
  }

  /** The one-pass matcher accepts exactly what the backtracking semantics accepts. */
  lemma GreedyAgrees(items: seq<Item>, s: string)
    requires Deterministic(items)
    ensures GreedyMatch(items, s) <==> Matches(items, s)
  {
    if GreedyMatch(items, s) {
      GreedySound(items, s);
    }
    if Matches(items, s) {
      GreedyComplete(items, s);
    }
  }

  lemma PhoneIsDeterministic()
    ensures Deterministic(PHONE)
  {
  }

  /** `phoneRegex.test(s)`. */
  function PhoneValid(s: string): bool
  {
    GreedyMatch(PHONE, s)
  }

  /** The matcher used by the form accepts exactly the strings the regular expression matches. */
  lemma PhoneValidIffMatches(s: string)
    ensures PhoneValid(s) <==> Matches(PHONE, s)
  {
    PhoneIsDeterministic();
    GreedyAgrees(PHONE, s);
  }

  /** The number of decimal digits in `s`. */
  function DigitCount(s: string): nat
  {
    if s == [] then 0 else (if InClass(s[0], Digit) then 1 else 0) + DigitCount(s[1..])
  }

  lemma {:induction false} DigitCountAppend(a: string, b: string)
    ensures DigitCount(a + b) == DigitCount(a) + DigitCount(b)
  {
    if a == [] {
      assert a + b == b;
    } else {
      assert (a + b)[0] == a[0];
      assert (a + b)[1..] == a[1..] + b;
      DigitCountAppend(a[1..], b);
    }
  }

  /** A piece taken by one item holds only digits or no digits at all. */
  lemma {:induction false} DigitCountOfPiece(s: string, cls: CharClass)
    requires AllIn(s, cls)
    ensures DigitCount(s) == if cls == Digit then |s| else 0
  {
    if s != [] {
      if cls != Digit && InClass(s[0], Digit) {
        ClassesDisjoint(s[0], cls, Digit);
      }
      DigitCountOfPiece(s[1..], cls);
    }
  }

  /** The least and greatest number of digits the items of a pattern can take. */
  function MinDigits(items: seq<Item>): nat
  {
    if items == [] then 0 else (if items[0].cls == Digit then items[0].min else 0) + MinDigits(items[1..])
  }

  function MaxDigits(items: seq<Item>): nat
  {
    if items == [] then 0 else (if items[0].cls == Digit then items[0].max else 0) + MaxDigits(items[1..])
  }

  lemma {:induction false} DigitBounds(items: seq<Item>, s: string)
    requires Matches(items, s)
    ensures MinDigits(items) <= DigitCount(s) <= MaxDigits(items)
    decreases |items|
  {
    if items != [] {
      var k :| items[0].min <= k <= items[0].max && k <= |s|
               && AllIn(s[..k], items[0].cls) && Matches(items[1..], s[k..]);
      assert s == s[..k] + s[k..];
      DigitCountAppend(s[..k], s[k..]);
      DigitCountOfPiece(s[..k], items[0].cls);
      DigitBounds(items[1..], s[k..]);
    }
  }

  /** Every accepted number has between 10 and 12 digits. */
  lemma AcceptedDigitCount(s: string)
    requires PhoneValid(s)
    ensures 10 <= DigitCount(s) <= 12
  {
    PhoneValidIffMatches(s);
    DigitBounds(PHONE, s);
    PhoneDigitLimits();
  }

  lemma PhoneDigitLimits()
    ensures MinDigits(PHONE) == 10 && MaxDigits(PHONE) == 12
  {
  }

  /** One step of the one-pass matcher, for a known run length. */
  lemma GreedyStep(items: seq<Item>, s: string, g: nat)
    requires items != [] && Run(s, items[0].cls, items[0].max) == g && items[0].min <= g
    ensures GreedyMatch(items, s) == GreedyMatch(items[1..], s[g..])
  {
  }

  /** A digit string starts no run of any other class. */
  lemma NoOtherRunOverDigits(d: string, cls: CharClass, limit: nat)
    requires d != [] && InClass(d[0], Digit) && cls != Digit
    ensures Run(d, cls, limit) == 0
  {
    if InClass(d[0], cls) {
      ClassesDisjoint(d[0], cls, Digit);
    }
  }

  /** The part of the pattern after the optional `+` and `(` accepts 10 to 12 bare digits. */
  lemma DigitsAfterPrefix(d: string)
    requires AllIn(d, Digit) && 10 <= |d| <= 12
    ensures GreedyMatch(PHONE[2..], d)
  {
    var p := PHONE;
    assert GreedyMatch(p[8..], d[|d|..]);
    GreedyStep(p[7..], d[6..], |d| - 6);
    assert d[6..][|d| - 6..] == d[|d|..];
    assert d[6..][0] == d[6];
    NoOtherRunOverDigits(d[6..], Separator, 1);
    GreedyStep(p[6..], d[6..], 0);
    GreedyStep(p[5..], d[3..], 3);
    assert d[3..][3..] == d[6..];
    assert d[3..][0] == d[3];
    NoOtherRunOverDigits(d[3..], Separator, 1);
    GreedyStep(p[4..], d[3..], 0);
    NoOtherRunOverDigits(d[3..], CloseParen, 1);
    GreedyStep(p[3..], d[3..], 0);
    GreedyStep(p[2..], d, 3);
  }

  /**
   * Ten to twelve bare digits are accepted, alone, after a `+`, or after an
   * opening parenthesis that is never closed: the pattern does not ask for
   * balanced parentheses.
   */
  lemma DigitsAccepted(d: string)
    requires AllIn(d, Digit) && 10 <= |d| <= 12
    ensures PhoneValid(d)
    ensures PhoneValid("+" + d)
    ensures PhoneValid("(" + d)
  {
    var p := PHONE;
    DigitsAfterPrefix(d);
    NoOtherRunOverDigits(d, OpenParen, 1);
    GreedyStep(p[1..], d, 0);
    NoOtherRunOverDigits(d, Plus, 1);
    GreedyStep(p, d, 0);
    assert ("+" + d)[1..] == d;
    GreedyStep(p, "+" + d, 1);
    assert ("(" + d)[1..] == d;
    GreedyStep(p[1..], "(" + d, 1);
    GreedyStep(p, "(" + d, 0);
  }

  /** Fewer than 10 or more than 12 digits are rejected, whatever else the text holds. */
  lemma DigitCountOutOfRangeRejected(s: string)
    requires DigitCount(s) < 10 || DigitCount(s) > 12
    ensures !PhoneValid(s)
  {
    if PhoneValid(s) {
      AcceptedDigitCount(s);
    }
  }

  /** A number may not start with a separator. */
  lemma LeadingSeparatorRejected(s: string)
    requires s != [] && InClass(s[0], Separator)
    ensures !PhoneValid(s)
  {
    var p := PHONE;
    GreedyStep(p, s, 0);
    GreedyStep(p[1..], s, 0);
    assert Run(s, Digit, 3) == 0;
  }
}
