/**
 * Best-card ranking for a chosen category: keep the user's rows of that
 * category, take the largest cashback, and name the first row that has it.
 */
module Ranking {
  import opened Database

  /**
   * `[card for card in cards if card[3] == category]`, in the order given.
   * It has the shape of `Database.CardsOf`, but models a different step:
   * that one is the query's `WHERE user_id = ?`, this one the handler's
   * own list comprehension over the rows the query returned.
   */
  function Filtered(cards: seq<Card>, category: string): (r: seq<Card>)
    ensures |r| <= |cards|
    ensures forall c :: c in r <==> c in cards && c.category == category
  {
    if cards == [] then []
    else
      var last := cards[|cards| - 1];
      assert cards == cards[..|cards| - 1] + [last];
      Filtered(cards[..|cards| - 1], category) + (if last.category == category then [last] else [])
  }

  /**
   * Where the `k`-th filtered row sits in the input: at `i`, with exactly the
   * first `k` filtered rows before it.
   */
  lemma {:induction false} FilteredPrefix(cards: seq<Card>, category: string, k: nat) returns (i: nat)
    requires k < |Filtered(cards, category)|
    ensures i < |cards| && cards[i] == Filtered(cards, category)[k]
    ensures Filtered(cards[..i], category) == Filtered(cards, category)[..k]
    decreases |cards|
  {
    var n := |cards| - 1;
    var init := cards[..n];
    var fi := Filtered(init, category);
    var f := Filtered(cards, category);
    FilteredSnoc(cards, category);
    if k < |fi| {
      i := FilteredPrefix(init, category, k);
      assert init[..i] == cards[..i];
      PrefixOfAppend(fi, f, k);
    } else {
      i := n;
      assert f[..k] == fi;
    }
  }

  /** The filter of a non-empty list: that of its front, then its last row if it matches. */
  lemma FilteredSnoc(cards: seq<Card>, category: string)
    requires cards != []
    ensures Filtered(cards, category)
      == Filtered(cards[..|cards| - 1], category)
         + (if cards[|cards| - 1].category == category then [cards[|cards| - 1]] else [])
  {
  }

  lemma PrefixOfAppend(a: seq<Card>, b: seq<Card>, k: nat)
    requires k < |a| <= |b| && a == b[..|a|]
    ensures b[k] == a[k] && b[..k] == a[..k]
  {
  }

  /** `[card[4] for card in filtered]`. */
  function CashbacksOf(cards: seq<Card>): (r: seq<real>)
    ensures |r| == |cards|
    ensures forall i :: 0 <= i < |cards| ==> r[i] == cards[i].cashback
  {
    seq(|cards|, i requires 0 <= i < |cards| => cards[i].cashback)
  }

  /**
   * Python's `max` of a non-empty list: it scans left to right and replaces
   * the current best only by a strictly greater item.
   */
  function Max(xs: seq<real>): (m: real)
    requires xs != []
    ensures m in xs
    ensures forall i :: 0 <= i < |xs| ==> xs[i] <= m
  {
    if |xs| == 1 then xs[0]
    else
      var init := xs[..|xs| - 1];
      var m := Max(init);
      assert forall i :: 0 <= i < |xs| - 1 ==> xs[i] == init[i];
      if xs[|xs| - 1] > m then xs[|xs| - 1] else m
  }

  /** `xs.index(x)`: the first position holding `x`. */
  function IndexOf(xs: seq<real>, x: real): (i: nat)
    requires x in xs
    ensures i < |xs| && xs[i] == x
    ensures forall j :: 0 <= j < i ==> xs[j] != x
  {
    if xs[0] == x then 0 else 1 + IndexOf(xs[1..], x)
  }

  datatype Ranked = NoCards | BestCard(card: Card, cashback: real)

  /** The pick of the callback handler for one category. */
  function Rank(cards: seq<Card>, category: string): (r: Ranked)
    ensures r.NoCards? <==> forall c :: c in cards ==> c.category != category
    ensures r.BestCard? ==> r.card in cards && r.card.category == category && r.cashback == r.card.cashback
    ensures r.BestCard? ==> forall c :: c in cards && c.category == category ==> c.cashback <= r.cashback
  {
    var filtered := Filtered(cards, category);
    var cashbacks := CashbacksOf(filtered);
    if filtered == [] then NoCards
    else
      var best := Max(cashbacks);
      var k := IndexOf(cashbacks, best);
      assert forall c :: c in filtered ==> exists i :: 0 <= i < |filtered| && filtered[i] == c;
      BestCard(filtered[k], best)
  }

  /** Ties go to the earliest row: every matching row before the pick has a smaller cashback. */
  lemma RankFirstOccurrence(cards: seq<Card>, category: string)
    requires Rank(cards, category).BestCard?
    ensures exists i :: (0 <= i < |cards| && cards[i] == Rank(cards, category).card
      && forall j :: 0 <= j < i && cards[j].category == category ==> cards[j].cashback < Rank(cards, category).cashback)
  {
    var f := Filtered(cards, category);
    var cashbacks := CashbacksOf(f);
    var best := Max(cashbacks);
    var k := IndexOf(cashbacks, best);
    var i := FilteredPrefix(cards, category, k);
    forall j | 0 <= j < i && cards[j].category == category ensures cards[j].cashback < best {
      assert cards[j] in cards[..i];
      assert cards[j] in f[..k];
      var k' :| 0 <= k' < k && f[k'] == cards[j];
      assert cashbacks[k'] != best;
    }
  }

  /** Two rows of one category: the larger cashback wins. */
  lemma HigherCashbackWins(a: Card, b: Card)
    requires a.category == b.category && a.cashback < b.cashback
    ensures Rank([a, b], a.category) == BestCard(b, b.cashback)
  {
    var f := Filtered([a, b], a.category);
    assert [a, b][..1] == [a];
    assert f == [a, b];
  }
}
