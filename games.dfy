/**
 * The memory-matching game: a shuffled deck of sixteen cards holding eight
 * symbols twice each, flipped two at a time.
 */
module Games {
  import opened Lists

  /** The eight symbols of the deck (house, grandfather, grandmother, cake, cap, chapel, baby, tree). */
  const Images: seq<string> := ["\U{1F3E0}", "\U{1F474}", "\U{1F475}", "\U{1F382}",
                                "\U{1F393}", "\U{1F492}", "\U{1F476}", "\U{1F333}"]

  /** `[...images, ...images]`, before the shuffle. */
  const Pairs: seq<string> := Images + Images

  const DeckSize: nat := 16

  datatype Card = Card(id: nat, symbol: string)

  /**
   * The shuffled symbols become the deck, each card's id its position.
   * The shuffle itself is random and arrives as a parameter: any
   * rearrangement of `Pairs`.
   */
  function Deal(shuffled: seq<string>): (r: seq<Card>)
    ensures |r| == |shuffled|
    ensures forall i :: 0 <= i < |r| ==> r[i].id == i && r[i].symbol == shuffled[i]
  {
    seq(|shuffled|, i requires 0 <= i < |shuffled| => Card(i, shuffled[i]))
  }

  function Symbols(cards: seq<Card>): (r: seq<string>)
    ensures |r| == |cards| && forall i :: 0 <= i < |r| ==> r[i] == cards[i].symbol
  {
    seq(|cards|, i requires 0 <= i < |cards| => cards[i].symbol)
  }

  predicate IsShuffle(shuffled: seq<string>) {
    multiset(shuffled) == multiset(Pairs)
  }

  /** A dealt deck has sixteen cards, ids 0 to 15, and each symbol exactly twice. */
  lemma DealSpec(shuffled: seq<string>)
    requires IsShuffle(shuffled)
    ensures var deck := Deal(shuffled);
      && |deck| == DeckSize
      && (forall i :: 0 <= i < |deck| ==> deck[i].id == i)
      && (forall s :: s in Images ==> multiset(Symbols(deck))[s] == 2)
      && (forall s :: s !in Images ==> multiset(Symbols(deck))[s] == 0)
  {
    var deck := Deal(shuffled);
    assert Symbols(deck) == shuffled;
    assert |shuffled| == |multiset(Pairs)| == |Pairs|;
    DistinctImages();
    forall s | s in Images
      ensures multiset(Symbols(deck))[s] == 2
    {
      DistinctOnce(Images, s);
    }
  }

  lemma DistinctImages()
    ensures Distinct(Images)
  {
  }

  /** An element of a list without repeats occurs once in it. */
  lemma {:induction false} DistinctOnce(s: seq<string>, x: string)
    requires Distinct(s) && x in s
    ensures multiset(s)[x] == 1
  {
    assert s == [s[0]] + s[1..];
    if s[0] == x {
      assert x !in s[1..];
    } else {
      DistinctOnce(s[1..], x);
    }
  }

  // ---------------------------------------------------------------------
  // Facts about lists of distinct card ids

  function IdSet(s: seq<nat>): set<nat> {
    set x | x in s
  }

  function Below(n: nat): (r: set<nat>)
    ensures forall x: nat :: x in r <==> x < n
  {
    if n == 0 then {} else Below(n - 1) + {n - 1}
  }

  lemma {:induction false} IdSetSize(s: seq<nat>)
    requires Distinct(s)
    ensures |IdSet(s)| == |s|
  {
    if |s| > 0 {
      IdSetSize(s[1..]);
      assert IdSet(s) == {s[0]} + IdSet(s[1..]);
      assert s[0] !in IdSet(s[1..]);
    }
  }

  lemma {:induction false} BelowSize(n: nat)
    ensures |Below(n)| == n
  {
    if n > 0 {
      var b := Below(n - 1);
      BelowSize(n - 1);
      assert Below(n) == b + {n - 1};
      assert n - 1 !in b;
    }
  }

  lemma {:induction false} SubsetSize(a: set<nat>, b: set<nat>)
    requires a <= b
    ensures |a| <= |b|
    ensures |a| == |b| ==> a == b
    decreases |b|
  {
    if b != {} {
      var y :| y in b;
      SubsetSize(a - {y}, b - {y});
      if y in a {
        assert |a - {y}| == |a| - 1;
        assert a == (a - {y}) + {y} && b == (b - {y}) + {y};
      } else {
        assert a - {y} == a;
      }
    }
  }

  /**
   * Distinct ids below n number at most n, and exactly n only when every id
   * below n is among them.
   */
  lemma DistinctIdsBound(s: seq<nat>, n: nat)
    requires Distinct(s) && forall i :: 0 <= i < |s| ==> s[i] < n
    ensures |s| <= n
    ensures |s| == n <==> forall k :: 0 <= k < n ==> k in s
  {
    IdSetSize(s);
    BelowSize(n);
    assert IdSet(s) <= Below(n);
    SubsetSize(IdSet(s), Below(n));
    if forall k :: 0 <= k < n ==> k in s {
      assert Below(n) <= IdSet(s);
      SubsetSize(Below(n), IdSet(s));
    }
    if |s| == n {
      forall k | 0 <= k < n
        ensures k in s
      {
        assert k in Below(n);
      }
    }
  }

  // ---------------------------------------------------------------------
  // The game

  /** Consecutive entries of `matched`, taken two by two, hold the same symbol. */
  predicate PairedUp(cards: seq<Card>, matched: seq<nat>)
    requires forall i :: 0 <= i < |matched| ==> matched[i] < |cards|
  {
    && |matched| % 2 == 0
    && forall i :: 0 <= i < |matched| - 1 && i % 2 == 0 ==>
         cards[matched[i]].symbol == cards[matched[i + 1]].symbol
  }

  class MemoryMatching {
    var cards: seq<Card>
    var flipped: seq<nat>
    var matched: seq<nat>
    var moves: nat

    /**
     * A full deck indexed by id; at most two face-up cards, none of them
     * matched; matched cards recorded once each and in equal-symbol pairs.
     */
    predicate Valid()
      reads this
    {
      && |cards| == DeckSize
      && (forall i :: 0 <= i < |cards| ==> cards[i].id == i)
      && |flipped| <= 2
      && (forall i :: 0 <= i < |flipped| ==> flipped[i] < DeckSize && flipped[i] !in matched)
      && Distinct(flipped)
      && (forall i :: 0 <= i < |matched| ==> matched[i] < DeckSize)
      && Distinct(matched)
      && PairedUp(cards, matched)
    }

    /** The pairs found so far. */
    function PairsFound(): (r: nat)
      reads this
      requires Valid()
      ensures r <= |Images|
      ensures |matched| == 2 * r
    {
      DistinctIdsBound(matched, DeckSize);
      |matched| / 2
    }

    /** The game is won when `matched` holds sixteen ids. */
    predicate Won()
      reads this
    {
      |matched| == |Images| * 2
    }

    /** Won exactly when every card of the deck is matched. */
    lemma WonWhenAllMatched()
      requires Valid()
      ensures Won() <==> forall k :: 0 <= k < DeckSize ==> k in matched
    {
      DistinctIdsBound(matched, DeckSize);
    }

    /** Mounting deals a deck. */
    constructor (shuffled: seq<string>)
      requires IsShuffle(shuffled)
      ensures cards == Deal(shuffled) && flipped == [] && matched == [] && moves == 0
      ensures Valid()
    {
      cards, flipped, matched, moves := Deal(shuffled), [], [], 0;
      new;
      DealSpec(shuffled);
    }

    /**
     * `handleCardClick(id)`: ignored while two cards are face-up and on a
     * face-up or matched card; otherwise the card turns over, and turning
     * the second card counts a move.
     */
    method Click(id: nat)
      requires Valid() && id < |cards|
      modifies this`flipped, this`moves
      ensures Valid()
      ensures |old(flipped)| == 2 || id in old(flipped) || id in old(matched) ==>
        flipped == old(flipped) && moves == old(moves)
      ensures !(|old(flipped)| == 2 || id in old(flipped) || id in old(matched)) ==>
        && flipped == old(flipped) + [id]
        && moves == old(moves) + (if |flipped| == 2 then 1 else 0)
    {
      if |flipped| == 2 || id in flipped || id in matched {
        return;
      }
      flipped := flipped + [id];
      if |flipped| == 2 {
        moves := moves + 1;
      }
    }

    /**
     * The step that runs a second after the second card turns: equal
     * symbols add both ids to `matched`; either way the cards turn back.
     */
    method ResolvePair()
      requires Valid() && |flipped| == 2
      modifies this`flipped, this`matched
      ensures Valid()
      ensures flipped == []
      ensures var first, second := old(flipped)[0], old(flipped)[1];
        matched == (if cards[first].symbol == cards[second].symbol
                    then old(matched) + [first, second] else old(matched))
    {
      var first, second := flipped[0], flipped[1];
      if cards[first].symbol == cards[second].symbol {
        matched := matched + [first, second];
      }
      flipped := [];
    }

    /** `resetGame`: nothing flipped or matched, no moves, and a fresh deck. */
    method Reset(shuffled: seq<string>)
      requires IsShuffle(shuffled)
      modifies this
      ensures cards == Deal(shuffled) && flipped == [] && matched == [] && moves == 0
      ensures Valid()
    {
      cards := [];
      flipped := [];
      matched := [];
      moves := 0;
      cards := Deal(shuffled);
      DealSpec(shuffled);
    }
  }
}
