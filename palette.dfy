/**
 * Colour of an event marker and of a legend swatch, chosen from the
 * event's free-text type by ordered substring tests: the first category
 * token the type contains decides, and a type containing none is black.
 * The source writes this table twice, once inline in the markers' `fill`
 * callback and once as `getEventTypeColor`; both are modelled and proved
 * equal to one reference table.
 */
module Palette {
  import opened Text
  import opened Timeline

  /** The CSS colour names the source writes: purple, red, green, blue, black and lightgray. */
  datatype Color = Purple | Red | Green | Blue | Black | LightGray

  /** Category tokens: science and technology, war, historical figure, politics. */
  const Tech: string := "科技"
  const War: string := "战争"
  const Person: string := "人物"
  const Politics: string := "政治"

  /** One row of the colour table: a token to look for and the colour it selects. */
  datatype Rule = Rule(token: string, color: Color)

  /** The table in the order the source tests it. */
  const CategoryRules: seq<Rule> :=
    [Rule(Tech, Purple), Rule(War, Red), Rule(Person, Green), Rule(Politics, Blue)]

  /** Reference definition: the colour of the first rule whose token occurs in `kind`, else `fallback`. */
  function FirstMatch(rules: seq<Rule>, kind: string, fallback: Color): (c: Color)
    ensures c == fallback || exists j :: 0 <= j < |rules| && c == rules[j].color
  {
    if rules == [] then fallback
    else if Contains(kind, rules[0].token) then rules[0].color
    else FirstMatch(rules[1..], kind, fallback)
  }

  /** The first matching rule decides, whatever later rules would say. */
  lemma {:induction false} FirstMatchWins(rules: seq<Rule>, kind: string, fallback: Color, k: nat)
    requires k < |rules| && Contains(kind, rules[k].token)
    requires forall j :: 0 <= j < k ==> !Contains(kind, rules[j].token)
    ensures FirstMatch(rules, kind, fallback) == rules[k].color
  {
    if k > 0 {
      assert !Contains(kind, rules[0].token);
      FirstMatchWins(rules[1..], kind, fallback, k - 1);
    }
  }

  /** With no token present the fallback colour is used. */
  lemma {:induction false} FirstMatchFallback(rules: seq<Rule>, kind: string, fallback: Color)
    requires forall j :: 0 <= j < |rules| ==> !Contains(kind, rules[j].token)
    ensures FirstMatch(rules, kind, fallback) == fallback
  {
    if rules != [] {
      assert !Contains(kind, rules[0].token);
      FirstMatchFallback(rules[1..], kind, fallback);
    }
  }

  /** `getEventTypeColor(type)`: the legend's copy of the table. */
  function EventTypeColor(kind: string): (c: Color)
    ensures c != LightGray
  {
    if Contains(kind, Tech) then Purple
    else if Contains(kind, War) then Red
    else if Contains(kind, Person) then Green
    else if Contains(kind, Politics) then Blue
    else Black
  }

  /** The markers' inline `fill` callback: the same table, written a second time. */
  function MarkerFill(e: Event): (c: Color)
    ensures c == EventTypeColor(e.kind)
  {
    if Contains(e.kind, "科技") then Purple
    else if Contains(e.kind, "战争") then Red
    else if Contains(e.kind, "人物") then Green
    else if Contains(e.kind, "政治") then Blue
    else Black
  }

  /**
   * `getEventTypeColor` is the reference table: the first category token
   * the type contains decides its colour (technology before war before
   * person before politics, so a type mentioning both technology and war is
   * purple), and a type containing none of them is black.
   */
  lemma EventTypeColorFollowsTable(kind: string)
    ensures EventTypeColor(kind) == FirstMatch(CategoryRules, kind, Black)
    ensures forall k :: 0 <= k < |CategoryRules| && Contains(kind, CategoryRules[k].token)
                        && (forall j :: 0 <= j < k ==> !Contains(kind, CategoryRules[j].token))
                        ==> EventTypeColor(kind) == CategoryRules[k].color
    ensures (forall j :: 0 <= j < |CategoryRules| ==> !Contains(kind, CategoryRules[j].token))
            ==> EventTypeColor(kind) == Black
  {
    var rules := CategoryRules;
    if Contains(kind, Tech) {
      FirstMatchWins(rules, kind, Black, 0);
    } else if Contains(kind, War) {
      FirstMatchWins(rules, kind, Black, 1);
    } else if Contains(kind, Person) {
      FirstMatchWins(rules, kind, Black, 2);
    } else if Contains(kind, Politics) {
      FirstMatchWins(rules, kind, Black, 3);
    } else {
      FirstMatchFallback(rules, kind, Black);
    }
    forall k | 0 <= k < |rules| && Contains(kind, rules[k].token)
               && (forall j :: 0 <= j < k ==> !Contains(kind, rules[j].token))
      ensures EventTypeColor(kind) == rules[k].color
    {
      FirstMatchWins(rules, kind, Black, k);
    }
  }

  /** The marker fill and the legend swatch of a type agree, and both follow the reference table. */
  lemma MarkerFollowsTable(e: Event)
    ensures MarkerFill(e) == FirstMatch(CategoryRules, e.kind, Black)
  {
    EventTypeColorFollowsTable(e.kind);
  }
}
