/** The stack controller: the window of visible cards over the deck, the
    consumed-card counter, the guard flags, and the reactions to the cards'
    gestures. Cards in the window are records; the deck bookkeeping of every
    operation is tied to a function of KolodaDeck. */
module KolodaStack {
  import opened KolodaTypes
  import opened KolodaGeometry
  import opened KolodaDeck
  import opened KolodaRecycling
  import KolodaCard

  /** The reuse key the controller registers its card class under and
      dequeues cards with. It differs from the identifier the cards carry
      themselves (see CreateCard). */
  const CardKey: string := "KolodaCardViewKey"

  /** The three alpha levels of the visual settings. */
  datatype Alpha = Opaque | SemiTransparent | Transparent {
    function Value(): (v: real)
      ensures 0.0 <= v <= 1.0
      ensures v == 1.0 <==> this == Opaque
      ensures v == 0.0 <==> this == Transparent
    {
      match this
      case Opaque => 1.0
      case SemiTransparent => 0.7
      case Transparent => 0.0
    }
  }

  /** A card object as the controller sees it: its identity, the number the
      controller stamped on it, the deck index whose content it shows, its
      content and overlay views, and its frame, alpha, interaction and hidden
      flags. */
  datatype Card = Card(
    view: View,
    number: int,
    deck: nat,
    content: Option<View>,
    overlay: Option<View>,
    frame: Rect,
    alpha: Alpha,
    interactive: bool,
    hidden: bool)

  /** The data source: the number of cards and, per deck index, the content
      view and the optional overlay view. */
  datatype DataSource = DataSource(total: nat, content: nat -> View, overlay: nat -> Option<View>)

  /** Calls made to the delegate and the interaction delegate. */
  datatype Event =
    | DidSwipe(index: int, direction: Direction)
    | DidSelect(index: int)
    | DidRunOutOfCards
    | InteractionStarted(index: int)
    | DidDrag(percent: real, direction: Direction)
    | InteractionEnded(index: int)

  /** How an operation ends: normally, with a Swift runtime trap (an index out
      of range, a nil unwrapped, an invalid range), or with a raised
      exception and its reason. Neither of the last two returns. */
  datatype Outcome = Completed | Trapped | Raised(reason: string)

  const CardNotFound: string := "Card not found in the list of visible cards"

  /** The deck index of every card in the window, front first. */
  function Decks(cards: seq<Card>): (r: seq<nat>)
    ensures |r| == |cards|
    ensures forall i :: 0 <= i < |cards| ==> r[i] == cards[i].deck
  {
    seq(|cards|, i requires 0 <= i < |cards| => cards[i].deck)
  }

  /** Dropping the front card drops the front deck index. */
  lemma DecksDropFront(cards: seq<Card>)
    requires |cards| > 0
    ensures Decks(cards[1..]) == Decks(cards)[1..]
  {
    assert |Decks(cards[1..])| == |Decks(cards)[1..]|;
    forall i | 0 <= i < |cards| - 1
      ensures Decks(cards[1..])[i] == Decks(cards)[1..][i]
    {
      assert cards[1..][i] == cards[i + 1];
    }
  }

  function OptionSet(o: Option<View>): set<View>
  {
    if o.Some? then {o.value} else {}
  }

  /** The views recycling a card hands to the pool: the card and its content
      and overlay views. */
  function CardViews(c: Card): set<View>
  {
    {c.view} + OptionSet(c.content) + OptionSet(c.overlay)
  }

  /** Every view recycling `cards` hands to the pool. */
  function Released(cards: seq<Card>): (r: set<View>)
    ensures forall i :: 0 <= i < |cards| ==> CardViews(cards[i]) <= r
  {
    if |cards| == 0 then {} else Released(cards[..|cards| - 1]) + CardViews(cards[|cards| - 1])
  }

  /** Every card shows the content and overlay the data source gives for its
      deck index. */
  predicate ShowsDataSource(cards: seq<Card>, ds: DataSource)
  {
    forall i :: 0 <= i < |cards| ==>
      cards[i].content == Some(ds.content(cards[i].deck)) && cards[i].overlay == ds.overlay(cards[i].deck)
  }

  /** A card object just dequeued and configured for deck index `index`. */
  function Created(view: View, index: nat, ds: DataSource): Card
  {
    Card(view, index, index, Some(ds.content(index)), ds.overlay(index), ZeroRect, Opaque, true, false)
  }

  /** The card objects of `cards`, in window order. */
  function ViewsOf(cards: seq<Card>): (r: seq<View>)
    ensures |r| == |cards| && forall i :: 0 <= i < |cards| ==> r[i] == cards[i].view
  {
    seq(|cards|, i requires 0 <= i < |cards| => cards[i].view)
  }

  // ---------------------------------------------------------------------
  // The pool across card creations

  /** The recycler's pool and the serial of the next object it makes. */
  datatype PoolState = PoolState(items: set<View>, instantiated: nat)

  /** The pool state after one dequeue under the card key that yields `v`:
      a pooled view carrying the key is taken out, else a new object is made
      and the pool is left alone. */
  function TakeCardView(s: PoolState, v: View): PoolState
  {
    if Pooled(s.items, CardKey) then PoolState(s.items - {v}, s.instantiated)
    else PoolState(s.items, s.instantiated + 1)
  }

  /** `v` is what a dequeue under the card key yields in state `s`: a pooled
      view carrying the key when there is one, else the next new object. */
  predicate MayTake(s: PoolState, v: View)
  {
    if Pooled(s.items, CardKey) then v in s.items && v.identifier == CardKey
    else v.id == ByRecycler(s.instantiated)
  }

  /** Creating cards whose objects are `views`, one after the other, leads
      the pool from `s` to `t`: each object is what its dequeue yields, and
      the pool lost exactly the pooled objects among them. */
  predicate Took(s: PoolState, views: seq<View>, t: PoolState)
    decreases |views|
  {
    if |views| == 0 then t == s
    else MayTake(s, views[0]) && Took(TakeCardView(s, views[0]), views[1..], t)
  }

  /** The pool after `cards` were recycled into it. */
  function Recycled(s: PoolState, cards: seq<Card>): (r: PoolState)
    ensures cards == [] ==> r == s
  {
    PoolState(s.items + Released(cards), s.instantiated)
  }

  /** The pool went from `s` to `t` by the creation of the card at the back
      of `cards` when one was `appended`, else it did not change. */
  predicate TookForAppended(s: PoolState, appended: bool, cards: seq<Card>, t: PoolState)
  {
    if appended then |cards| > 0 && Took(s, [cards[|cards| - 1].view], t) else t == s
  }

  /** Creations chain: taking `views` and then `v` is taking `views + [v]`. */
  lemma {:induction false} TookAppend(s: PoolState, views: seq<View>, mid: PoolState, v: View, t: PoolState)
    requires Took(s, views, mid) && Took(mid, [v], t)
    ensures Took(s, views + [v], t)
    decreases |views|
  {
    if |views| > 0 {
      assert (views + [v])[1..] == views[1..] + [v];
      TookAppend(TakeCardView(s, views[0]), views[1..], mid, v, t);
    }
  }

  /** Creating the cards `added` and then `card` is taking their objects
      in that order. */
  lemma TookAnotherCard(s: PoolState, added: seq<Card>, mid: PoolState, card: Card, t: PoolState)
    requires Took(s, ViewsOf(added), mid) && Took(mid, [card.view], t)
    ensures Took(s, ViewsOf(added + [card]), t)
  {
    assert ViewsOf(added + [card]) == ViewsOf(added) + [card.view];
    TookAppend(s, ViewsOf(added), mid, card.view, t);
  }

  /** What creating cards does to the pool: it only shrinks, it loses only
      objects the new cards took, and no pooled card object (one carrying the
      card's own identifier rather than the key) ever leaves it, so a
      recycled card is never reused. */
  lemma {:induction false} TookKeepsPooledCards(s: PoolState, views: seq<View>, t: PoolState)
    requires Took(s, views, t)
    ensures t.items <= s.items
    ensures forall v :: v in s.items && v !in t.items ==> v in views
    ensures forall v :: v in s.items && v.identifier == KolodaCard.CardViewIdentifier ==> v in t.items
    decreases |views|
  {
    if |views| > 0 {
      CardIdentifierIsNotKey();
      TookKeepsPooledCards(TakeCardView(s, views[0]), views[1..], t);
      assert forall v :: v in views[1..] ==> v in views;
    }
  }

  /** The first window position holding the card object `view`. */
  function IndexOf(cards: seq<Card>, view: View): (r: Option<nat>)
    ensures r.Some? ==> r.value < |cards| && cards[r.value].view == view
    ensures r.Some? ==> forall j :: 0 <= j < r.value ==> cards[j].view != view
    ensures r.Nil? <==> forall j :: 0 <= j < |cards| ==> cards[j].view != view
  {
    if |cards| == 0 then Nil
    else if cards[0].view == view then Some(0)
    else match IndexOf(cards[1..], view)
      case Nil => Nil
      case Some(k) => Some(k + 1)
  }

  /** A tap on the card at a window whose deck indices are contiguous from
      the counter reports exactly the deck index that card shows. */
  lemma TapReportsShownDeck(cards: seq<Card>, current: nat, view: View)
    requires Contiguous(Deck(current, Decks(cards)))
    requires IndexOf(cards, view).Some?
    ensures current + IndexOf(cards, view).value == cards[IndexOf(cards, view).value].deck
  {
    var k := IndexOf(cards, view).value;
    assert Decks(cards)[k] == current + k;
  }

  lemma CardIdentifierIsNotKey()
    ensures KolodaCard.CardViewIdentifier != CardKey
  {
    assert |KolodaCard.CardViewIdentifier| != |CardKey|;
  }

  /** A back-filled card gets the frame of its 1-based position among the
      added cards rather than of its window position: the two agree exactly
      when the window held one card before. */
  lemma {:induction false} BackFilledFrame(oldCount: nat, k: nat, width: real, height: real)
    ensures FrameForCardAtIndex(k + 1, width, height, CountOfVisibleCards)
              == FrameForCardAtIndex(oldCount + k, width, height, CountOfVisibleCards)
            <==> oldCount == 1
  {
    FrameClosedForm(k + 1, width, height, CountOfVisibleCards);
    FrameClosedForm(oldCount + k, width, height, CountOfVisibleCards);
    if oldCount != 1 {
      assert BackgroundCardsLeftMargin * ((k + 1) as real) != BackgroundCardsLeftMargin * ((oldCount + k) as real);
    }
  }

  class KolodaView {
    const recycler: KolodaRecycler
    /** The container's standardised size (the CoreGraphics width and
      height of its frame, never negative), which the card frames are
      computed from. */
    const width: real
    const height: real

    var currentCardNumber: nat
    var visibleCards: seq<Card>
    var enabled: bool
    var userInteractionEnabled: bool
    var animatedAppearing: bool
    var animating: bool
    var configured: bool

    /** Delegate calls, oldest first. */
    var events: seq<Event>
    /** Serial number of the next card object the controller allocates
      itself (outside the recycler). */
    var stackSerial: nat
    /** Started animations whose completion blocks have not run yet. */
    var pendingAppear: bool
    var pendingRevert: Option<View>
    var pendingSwipe: Option<Direction>
    var pendingRelease: bool

    /** The recycler is consistent and can always make a card: the card key
      stays registered, as a class or as a nib. */
    ghost predicate Valid()
      reads recycler
    {
      recycler.Valid() && (CardKey in recycler.registeredClasses || CardKey in recycler.registeredNibs)
    }

    twostate predicate RegistriesUnchanged()
      reads recycler
    {
      recycler.registeredNibs == old(recycler.registeredNibs)
      && recycler.registeredClasses == old(recycler.registeredClasses)
    }

    /** The counter and the deck index of every card in the window. */
    function DeckOf(): Deck
      reads this`currentCardNumber, this`visibleCards
    {
      Deck(currentCardNumber, Decks(visibleCards))
    }

    /** The recycler's pool and allocation counter. */
    function Pool(): PoolState
      reads recycler
    {
      PoolState(recycler.unusedItems, recycler.instantiated)
    }

    /** The resting frame of window position `index`, computed from the
      container's standardised size. */
    function FrameAt(index: nat): Rect
    {
      FrameForCardAtIndex(index, width, height, CountOfVisibleCards)
    }

    /** A card created for deck index `k` and placed at window position `k`
      by the initial population. */
    function Placed(view: View, k: nat, ds: DataSource): Card
    {
      Created(view, k, ds).(
        frame := FrameAt(k),
        alpha := if k == 0 then Opaque else SemiTransparent,
        interactive := k == 0)
    }

    /** The cards of `cards` from position `from` on were placed for deck
      indices 0, 1, ... */
    predicate PlacedFrom(cards: seq<Card>, from: nat, ds: DataSource)
    {
      forall i :: from <= i < |cards| ==> cards[i] == Placed(cards[i].view, i - from, ds)
    }

    /** Every card rests at the frame of its position, only the front card is
      opaque and interactive: the layout of a fresh population and the one a
      swipe settles into. */
    predicate RestingLayout()
      reads this`visibleCards
    {
      forall i :: 0 <= i < |visibleCards| ==>
        && visibleCards[i].frame == FrameAt(i)
        && visibleCards[i].alpha == (if i == 0 then Opaque else SemiTransparent)
        && visibleCards[i].interactive == (i == 0)
    }

    /** A controller for a container of the given size: the card class is
      registered under the card key; enabled, appearing animated, nothing
      shown. */
    constructor (width: real, height: real)
      ensures Valid() && fresh(recycler)
      ensures recycler.registeredClasses == map[CardKey := ViewClass("KolodaCardView", KolodaCard.CardViewIdentifier)]
      ensures recycler.registeredNibs == map[] && recycler.unusedItems == {} && recycler.instantiated == 0
      ensures this.width == Abs(width) && this.height == Abs(height)
      ensures currentCardNumber == 0 && visibleCards == [] && events == []
      ensures enabled && userInteractionEnabled && animatedAppearing && !animating && !configured
      ensures !pendingAppear && pendingRevert == Nil && pendingSwipe == Nil && !pendingRelease
    {
      var r := new KolodaRecycler();
      r.RegisterClass(ViewClass("KolodaCardView", KolodaCard.CardViewIdentifier), CardKey);
      recycler := r;
      this.width := Abs(width);
      this.height := Abs(height);
      currentCardNumber := 0;
      visibleCards := [];
      enabled := true;
      userInteractionEnabled := true;
      animatedAppearing := true;
      animating := false;
      configured := false;
      events := [];
      stackSerial := 0;
      pendingAppear := false;
      pendingRevert := Nil;
      pendingSwipe := Nil;
      pendingRelease := false;
    }

    /** Setting `enabled` also sets user interaction. */
    method SetEnabled(value: bool)
      modifies this`enabled, this`userInteractionEnabled
      ensures enabled == value && userInteractionEnabled == value
    {
      enabled := value;
      userInteractionEnabled := value;
    }

    // -------------------------------------------------------------------
    // Recycling views

    method DequeueReusableView(id: string) returns (r: Dequeued)
      requires Valid()
      modifies recycler
      ensures Valid() && RegistriesUnchanged()
      ensures r.Reused? <==> old(recycler.HasPooled(id))
      ensures r.Reused? ==> r.item in old(recycler.unusedItems) && r.item.identifier == id
                            && recycler.unusedItems == old(recycler.unusedItems) - {r.item}
      ensures r.FromClass? <==> !old(recycler.HasPooled(id)) && id in recycler.registeredClasses
      ensures r.FromClass? ==> r.item == View(ByRecycler(old(recycler.instantiated)), recycler.registeredClasses[id].identifier)
      ensures r.FromNib? <==> !old(recycler.HasPooled(id)) && id !in recycler.registeredClasses && id in recycler.registeredNibs
      ensures r.FromNib? ==> r.item == View(ByRecycler(old(recycler.instantiated)), recycler.registeredNibs[id].identifier)
      ensures !r.Reused? ==> recycler.unusedItems == old(recycler.unusedItems)
      ensures r.Fatal? <==> !old(recycler.HasPooled(id)) && id !in recycler.registeredClasses && id !in recycler.registeredNibs
    {
      r := recycler.Dequeue(id);
    }

    /** Registering under the card key replaces the card class but keeps the
      key registered. */
    method RegisterNib(nib: Nib, id: string)
      requires Valid()
      modifies recycler
      ensures Valid()
      ensures recycler.registeredNibs == old(recycler.registeredNibs)[id := nib]
      ensures recycler.registeredClasses == old(recycler.registeredClasses) - {id}
      ensures recycler.unusedItems == old(recycler.unusedItems)
    {
      recycler.RegisterNib(nib, id);
    }

    method RegisterClass(objectClass: ViewClass, id: string)
      requires Valid()
      modifies recycler
      ensures Valid()
      ensures recycler.registeredClasses == old(recycler.registeredClasses)[id := objectClass]
      ensures recycler.registeredNibs == old(recycler.registeredNibs) - {id}
      ensures recycler.unusedItems == old(recycler.unusedItems)
    {
      recycler.RegisterClass(objectClass, id);
    }

    /** A card for deck index `index`: dequeued under the card key (a pooled
      view carrying the key if there is one, else a new instance) and
      configured with the data source's content and overlay for `index`. */
    method CreateCard(ds: DataSource, index: nat) returns (card: Card)
      requires Valid()
      modifies recycler
      ensures Valid() && RegistriesUnchanged()
      ensures card == Created(card.view, index, ds)
      ensures old(recycler.HasPooled(CardKey)) ==>
                && card.view in old(recycler.unusedItems) && card.view.identifier == CardKey
                && recycler.unusedItems == old(recycler.unusedItems) - {card.view}
      ensures !old(recycler.HasPooled(CardKey)) ==>
                && card.view.id == ByRecycler(old(recycler.instantiated))
                && recycler.unusedItems == old(recycler.unusedItems)
      ensures !old(recycler.HasPooled(CardKey)) && CardKey in recycler.registeredClasses ==>
                card.view.identifier == recycler.registeredClasses[CardKey].identifier
      ensures !old(recycler.HasPooled(CardKey)) && CardKey !in recycler.registeredClasses ==>
                card.view.identifier == recycler.registeredNibs[CardKey].identifier
      ensures forall v :: v in old(recycler.unusedItems) && v.identifier == KolodaCard.CardViewIdentifier ==>
                v in recycler.unusedItems
      ensures recycler.unusedItems <= old(recycler.unusedItems)
      ensures Took(old(Pool()), [card.view], Pool())
    {
      var r := recycler.Dequeue(CardKey);
      assert !r.Fatal?;
      card := Created(r.item, index, ds);
      CardIdentifierIsNotKey();
    }

    /** Hands a card, its content and its overlay to the pool. */
    method Recycle(card: Card)
      requires Valid()
      modifies recycler
      ensures Valid() && RegistriesUnchanged()
      ensures recycler.unusedItems == old(recycler.unusedItems) + CardViews(card)
      ensures recycler.instantiated == old(recycler.instantiated)
    {
      recycler.Enqueue(card.view);
      if card.content.Some? {
        recycler.Enqueue(card.content.value);
      }
      if card.overlay.Some? {
        recycler.Enqueue(card.overlay.value);
      }
    }

    // -------------------------------------------------------------------
    // Populating the window

    /** The initial population: as many cards as the deck has left after the
      counter, at most the window size, for deck indices 0, 1, ...; the
      first is opaque and interactive, the others semi-transparent and not
      interactive, each at the frame of its loop index. */
    method SetupCards(ds: DataSource)
      requires Valid()
      modifies recycler, this`visibleCards
      ensures Valid() && RegistriesUnchanged()
      ensures DeckOf() == Setup(old(DeckOf()), ds.total)
      ensures visibleCards[..|old(visibleCards)|] == old(visibleCards)
      ensures PlacedFrom(visibleCards, |old(visibleCards)|, ds)
      ensures |old(visibleCards)| == 0 ==> ShowsDataSource(visibleCards, ds) && RestingLayout()
      ensures recycler.unusedItems <= old(recycler.unusedItems)
      ensures Took(old(Pool()), ViewsOf(visibleCards[|old(visibleCards)|..]), Pool())
    {
      ghost var added: seq<Card> := [];
      var remaining := ds.total - currentCardNumber;
      if 0 < remaining {
        var needed := Min(CountOfVisibleCards, remaining);
        for index := 0 to needed
          invariant Valid() && RegistriesUnchanged()
          invariant visibleCards == old(visibleCards) + added
          invariant |added| == index && Decks(added) == Range(0, index)
          invariant PlacedFrom(added, 0, ds)
          invariant Took(old(Pool()), ViewsOf(added), Pool())
        {
          ghost var mid := Pool();
          var card := CreateCard(ds, index);
          card := card.(frame := FrameAt(index),
                        alpha := if index == 0 then Opaque else SemiTransparent,
                        interactive := index == 0);
          visibleCards := visibleCards + [card];
          TookAnotherCard(old(Pool()), added, mid, card, Pool());
          added := added + [card];
          assert Decks(added) == Range(0, index) + [index];
        }
      }
      PlacedBehind(old(visibleCards), added, ds);
      TookKeepsPooledCards(old(Pool()), ViewsOf(added), Pool());
      if |old(visibleCards)| == 0 {
        PlacedCardsRest(ds);
      }
    }

    /** Cards placed for deck indices 0, 1, ... and appended behind `before`
      leave `before` in front and were placed from its end on. */
    lemma PlacedBehind(before: seq<Card>, added: seq<Card>, ds: DataSource)
      requires PlacedFrom(added, 0, ds)
      ensures (before + added)[..|before|] == before
      ensures (before + added)[|before|..] == added
      ensures PlacedFrom(before + added, |before|, ds)
      ensures Decks(before + added) == Decks(before) + Decks(added)
    {
      forall i | |before| <= i < |before + added|
        ensures (before + added)[i] == Placed((before + added)[i].view, i - |before|, ds)
      {
        assert (before + added)[i] == added[i - |before|];
      }
    }

    /** A window whose cards were placed for deck indices 0, 1, ... from the
      front shows the data source and rests in the layout. */
    lemma PlacedCardsRest(ds: DataSource)
      requires PlacedFrom(visibleCards, 0, ds)
      ensures ShowsDataSource(visibleCards, ds) && RestingLayout()
    {
      forall i | 0 <= i < |visibleCards|
        ensures visibleCards[i].frame == FrameAt(i)
        ensures visibleCards[i].content == Some(ds.content(visibleCards[i].deck))
      {
        assert visibleCards[i] == Placed(visibleCards[i].view, i, ds);
      }
    }

    /** Assigning a data source populates the window. */
    method SetDataSource(ds: DataSource)
      requires Valid()
      modifies recycler, this`visibleCards
      ensures Valid() && RegistriesUnchanged()
      ensures DeckOf() == Setup(old(DeckOf()), ds.total)
      ensures visibleCards[..|old(visibleCards)|] == old(visibleCards)
      ensures PlacedFrom(visibleCards, |old(visibleCards)|, ds)
      ensures |old(visibleCards)| == 0 ==> ShowsDataSource(visibleCards, ds) && RestingLayout()
      ensures Took(old(Pool()), ViewsOf(visibleCards[|old(visibleCards)|..]), Pool())
    {
      SetupCards(ds);
    }

    /** Puts every card at the frame of its window position. */
    method LayoutCards()
      modifies this`visibleCards
      ensures |visibleCards| == |old(visibleCards)|
      ensures forall i :: 0 <= i < |visibleCards| ==> visibleCards[i] == old(visibleCards[i]).(frame := FrameAt(i))
      ensures DeckOf() == old(DeckOf())
      ensures (forall i :: 0 <= i < |old(visibleCards)| ==> old(visibleCards[i]).frame == FrameAt(i)) ==>
                visibleCards == old(visibleCards)
    {
      for index := 0 to |visibleCards|
        invariant |visibleCards| == |old(visibleCards)|
        invariant forall i :: 0 <= i < index ==> visibleCards[i] == old(visibleCards[i]).(frame := FrameAt(i))
        invariant forall i :: index <= i < |visibleCards| ==> visibleCards[i] == old(visibleCards[i])
      {
        visibleCards := visibleCards[index := visibleCards[index].(frame := FrameAt(index))];
      }
      assert Decks(visibleCards) == Decks(old(visibleCards));
    }

    /** The first layout pass: a reload when nothing is shown, else a layout
      of the cards; later passes do nothing. */
    method LayoutSubviews(ds: DataSource)
      requires Valid()
      modifies recycler, this`currentCardNumber, this`visibleCards, this`animating,
               this`userInteractionEnabled, this`pendingAppear, this`configured, this`stackSerial
      ensures Valid() && RegistriesUnchanged()
      ensures configured
      ensures old(configured) || |old(visibleCards)| > 0 ==>
                && DeckOf() == old(DeckOf()) && Pool() == old(Pool())
                && animating == old(animating) && userInteractionEnabled == old(userInteractionEnabled)
                && pendingAppear == old(pendingAppear)
      ensures old(configured) ==> visibleCards == old(visibleCards)
      ensures !old(configured) && |old(visibleCards)| > 0 ==>
                && |visibleCards| == |old(visibleCards)|
                && forall i :: 0 <= i < |visibleCards| ==> visibleCards[i] == old(visibleCards[i]).(frame := FrameAt(i))
      ensures !old(configured) && |old(visibleCards)| == 0 ==> DeckOf() == Reload(old(DeckOf()), ds.total)
      ensures !old(configured) && |old(visibleCards)| == 0 && 0 < ds.total ==> ShowsDataSource(visibleCards, ds)
      ensures !old(configured) && |old(visibleCards)| == 0 && ReloadPopulates(old(DeckOf()), ds.total) ==> RestingLayout()
      ensures !old(configured) && |old(visibleCards)| == 0 && ReloadPopulates(old(DeckOf()), ds.total) ==>
                Took(old(Pool()), ViewsOf(visibleCards), Pool())
      ensures !old(configured) && |old(visibleCards)| == 0 && !ReloadPopulates(old(DeckOf()), ds.total) ==>
                Pool() == old(Pool())
      ensures !old(configured) && |old(visibleCards)| == 0 && ReloadPopulates(old(DeckOf()), ds.total) && animatedAppearing ==>
                animating && !userInteractionEnabled && pendingAppear
      ensures !old(configured) && |old(visibleCards)| == 0 && !(ReloadPopulates(old(DeckOf()), ds.total) && animatedAppearing) ==>
                && animating == old(animating) && userInteractionEnabled == old(userInteractionEnabled)
                && pendingAppear == old(pendingAppear)
    {
      if !configured {
        if |visibleCards| == 0 {
          ReloadData(ds);
        } else {
          LayoutCards();
        }
        configured := true;
      }
    }

    // -------------------------------------------------------------------
    // Reload and reset

    /** Recycles every card and resets the counter. */
    method RemoveAllCards()
      requires Valid()
      modifies recycler, this`currentCardNumber, this`visibleCards
      ensures Valid() && RegistriesUnchanged()
      ensures DeckOf() == Deck(0, [])
      ensures recycler.unusedItems == old(recycler.unusedItems) + Released(old(visibleCards))
      ensures Pool() == Recycled(old(Pool()), old(visibleCards))
    {
      for i := 0 to |visibleCards|
        invariant Valid() && RegistriesUnchanged()
        invariant visibleCards == old(visibleCards)
        invariant recycler.unusedItems == old(recycler.unusedItems) + Released(visibleCards[..i])
        invariant recycler.instantiated == old(recycler.instantiated)
      {
        Recycle(visibleCards[i]);
        assert visibleCards[..i + 1][..i] == visibleCards[..i];
      }
      assert visibleCards[..|visibleCards|] == visibleCards;
      currentCardNumber := 0;
      visibleCards := [];
    }

    method ResetAndReload(ds: DataSource)
      requires Valid()
      modifies recycler, this`currentCardNumber, this`visibleCards, this`animating,
               this`userInteractionEnabled, this`pendingAppear, this`stackSerial
      ensures Valid() && RegistriesUnchanged()
      ensures DeckOf() == Reload(Deck(0, []), ds.total)
      ensures 0 < ds.total ==> WellFormed(DeckOf(), ds.total) && ShowsDataSource(visibleCards, ds) && RestingLayout()
      ensures 0 < ds.total && animatedAppearing ==> animating && !userInteractionEnabled && pendingAppear
      ensures 0 < ds.total ==> Took(Recycled(old(Pool()), old(visibleCards)), ViewsOf(visibleCards), Pool())
      ensures ds.total == 0 ==> Pool() == Recycled(old(Pool()), old(visibleCards))
    {
      RemoveAllCards();
      ReloadData(ds);
      if 0 < ds.total {
        ReloadFromStart(Deck(0, []), ds.total);
      }
    }

    /** Re-skins every card with the content and overlay for deck index
      `counter + position`; nothing else about the cards changes. */
    method ReskinCards(ds: DataSource)
      modifies this`visibleCards
      ensures DeckOf() == Reskin(old(DeckOf()))
      ensures ShowsDataSource(visibleCards, ds)
      ensures forall i :: 0 <= i < |visibleCards| ==>
                visibleCards[i] == old(visibleCards[i]).(
                  deck := currentCardNumber + i,
                  content := Some(ds.content(currentCardNumber + i)),
                  overlay := ds.overlay(currentCardNumber + i))
    {
      for index := 0 to |visibleCards|
        invariant |visibleCards| == |old(visibleCards)|
        invariant forall i :: 0 <= i < index ==>
                    visibleCards[i] == old(visibleCards[i]).(
                      deck := currentCardNumber + i,
                      content := Some(ds.content(currentCardNumber + i)),
                      overlay := ds.overlay(currentCardNumber + i))
        invariant forall i :: index <= i < |visibleCards| ==> visibleCards[i] == old(visibleCards[i])
      {
        var n := currentCardNumber + index;
        visibleCards := visibleCards[index := visibleCards[index].(
                          deck := n, content := Some(ds.content(n)), overlay := ds.overlay(n))];
      }
      assert Decks(visibleCards) == Range(currentCardNumber, |visibleCards|);
    }

    /** The `k`-th card (from 0) a back-fill appended when the controller's
      own serial counter stood at `serial`: a fresh card object, unnumbered,
      semi-transparent, interactive, shown, at the frame of its 1-based
      count among the added cards. */
    predicate BackFilled(c: Card, k: nat, serial: nat)
    {
      && c.view == View(ByStack(serial + k), KolodaCard.CardViewIdentifier)
      && c.number == -1
      && c.frame == FrameAt(k + 1)
      && c.alpha == SemiTransparent
      && c.interactive && !c.hidden
    }

    /** Back-fill: appends `missing` new semi-transparent cards (capped by the
      cards the deck has left), allocated directly rather than through the
      recycler, each at the frame of its 1-based count among the added cards;
      then re-skins the whole window. */
    method LoadMissingCards(ds: DataSource, missing: int)
      requires 0 < missing ==> currentCardNumber < ds.total
      modifies this`visibleCards, this`stackSerial
      ensures DeckOf() == LoadMissing(old(DeckOf()), missing, ds.total)
      ensures ShowsDataSource(visibleCards, ds)
      ensures forall i :: 0 <= i < |old(visibleCards)| ==>
                visibleCards[i] == old(visibleCards[i]).(
                  deck := visibleCards[i].deck, content := visibleCards[i].content, overlay := visibleCards[i].overlay)
      ensures forall i :: |old(visibleCards)| <= i < |visibleCards| ==>
                BackFilled(visibleCards[i], i - |old(visibleCards)|, old(stackSerial))
    {
      if 0 < missing {
        var cardsToAdd := Min(missing, ds.total - currentCardNumber);
        for index := 1 to cardsToAdd + 1
          invariant |visibleCards| == |old(visibleCards)| + index - 1
          invariant stackSerial == old(stackSerial) + index - 1
          invariant visibleCards[..|old(visibleCards)|] == old(visibleCards)
          invariant forall i :: |old(visibleCards)| <= i < |visibleCards| ==>
                      var k := i - |old(visibleCards)|;
                      visibleCards[i] == Card(View(ByStack(old(stackSerial) + k), KolodaCard.CardViewIdentifier),
                                              -1, 0, Nil, Nil, FrameAt(k + 1), SemiTransparent, true, false)
        {
          var card := Card(View(ByStack(stackSerial), KolodaCard.CardViewIdentifier),
                           -1, 0, Nil, Nil, FrameAt(index), SemiTransparent, true, false);
          stackSerial := stackSerial + 1;
          visibleCards := visibleCards + [card];
        }
      }
      ghost var appended := visibleCards;
      ReskinCards(ds);
      forall i | 0 <= i < |old(visibleCards)|
        ensures visibleCards[i] == old(visibleCards[i]).(
                  deck := visibleCards[i].deck, content := visibleCards[i].content, overlay := visibleCards[i].overlay)
      {
        assert appended[i] == old(visibleCards)[i];
      }
    }

    /** Reload: nothing with an empty deck; at counter 0 everything is
      recycled first; then the window is refilled. */
    method ReloadData(ds: DataSource)
      requires Valid()
      modifies recycler, this`currentCardNumber, this`visibleCards, this`animating,
               this`userInteractionEnabled, this`pendingAppear, this`stackSerial
      ensures Valid() && RegistriesUnchanged()
      ensures DeckOf() == Reload(old(DeckOf()), ds.total)
      ensures 0 < ds.total ==> ShowsDataSource(visibleCards, ds)
      ensures ds.total == 0 ==> visibleCards == old(visibleCards)
      ensures ReloadPopulates(old(DeckOf()), ds.total) ==> RestingLayout()
      ensures old(currentCardNumber) != 0 ==> |visibleCards| >= |old(visibleCards)|
      ensures old(currentCardNumber) != 0 ==>
                forall i :: 0 <= i < |old(visibleCards)| ==>
                  visibleCards[i] == old(visibleCards[i]).(
                    deck := visibleCards[i].deck, content := visibleCards[i].content, overlay := visibleCards[i].overlay)
      ensures 0 < ds.total && old(currentCardNumber) != 0 && RefillBackFills(old(DeckOf()), ds.total) ==>
                forall i :: |old(visibleCards)| <= i < |visibleCards| ==> BackFilled(visibleCards[i], i - |old(visibleCards)|, old(stackSerial))
      ensures ReloadPopulates(old(DeckOf()), ds.total) && animatedAppearing ==>
                animating && !userInteractionEnabled && pendingAppear
      ensures !(ReloadPopulates(old(DeckOf()), ds.total) && animatedAppearing) ==>
                && animating == old(animating) && userInteractionEnabled == old(userInteractionEnabled)
                && pendingAppear == old(pendingAppear)
      ensures old(currentCardNumber) == 0 && 0 < ds.total ==>
                Took(Recycled(old(Pool()), old(visibleCards)), ViewsOf(visibleCards), Pool())
      ensures old(currentCardNumber) != 0 && ReloadPopulates(old(DeckOf()), ds.total) ==>
                Took(old(Pool()), ViewsOf(visibleCards), Pool())
      ensures !ReloadPopulates(old(DeckOf()), ds.total) ==> Pool() == old(Pool())
    {
      var totalCards := ds.total;
      if 0 == totalCards {
        return;
      }
      if 0 == currentCardNumber {
        RemoveAllCards();
      }
      assert DeckOf() == ReloadStart(old(DeckOf()));
      RefillCards(ds);
    }

    /** The refill step of a reload, with a non-empty deck: with cards missing
      from the window a back-fill (or, for an empty window, a population, a
      layout and the appear animation), otherwise a re-skin of every card. */
    method RefillCards(ds: DataSource)
      requires Valid() && 0 < ds.total
      modifies recycler, this`visibleCards, this`animating,
               this`userInteractionEnabled, this`pendingAppear, this`stackSerial
      ensures Valid() && RegistriesUnchanged()
      ensures DeckOf() == Refill(old(DeckOf()), ds.total)
      ensures ShowsDataSource(visibleCards, ds)
      ensures RefillPopulates(old(DeckOf()), ds.total) ==> RestingLayout()
      ensures |visibleCards| >= |old(visibleCards)|
      ensures forall i :: 0 <= i < |old(visibleCards)| ==>
                visibleCards[i] == old(visibleCards[i]).(
                  deck := visibleCards[i].deck, content := visibleCards[i].content, overlay := visibleCards[i].overlay)
      ensures RefillBackFills(old(DeckOf()), ds.total) ==>
                forall i :: |old(visibleCards)| <= i < |visibleCards| ==> BackFilled(visibleCards[i], i - |old(visibleCards)|, old(stackSerial))
      ensures RefillPopulates(old(DeckOf()), ds.total) && animatedAppearing ==>
                animating && !userInteractionEnabled && pendingAppear
      ensures !(RefillPopulates(old(DeckOf()), ds.total) && animatedAppearing) ==>
                && animating == old(animating) && userInteractionEnabled == old(userInteractionEnabled)
                && pendingAppear == old(pendingAppear)
      ensures RefillPopulates(old(DeckOf()), ds.total) ==> Took(old(Pool()), ViewsOf(visibleCards), Pool())
      ensures !RefillPopulates(old(DeckOf()), ds.total) ==> Pool() == old(Pool())
    {
      var totalCards := ds.total;
      if 0 < totalCards - (currentCardNumber + |visibleCards|) {
        if |visibleCards| > 0 {
          var missingCardsCount := Min(CountOfVisibleCards - |visibleCards|, totalCards - (currentCardNumber + 1));
          LoadMissingCards(ds, missingCardsCount);
        } else {
          PopulateCards(ds);
        }
      } else {
        ReskinCards(ds);
      }
    }

    /** The population path of a reload: the initial population, a layout,
      and the appear animation when appearing is animated. */
    method PopulateCards(ds: DataSource)
      requires Valid() && |visibleCards| == 0
      modifies recycler, this`visibleCards, this`animating, this`userInteractionEnabled, this`pendingAppear
      ensures Valid() && RegistriesUnchanged()
      ensures DeckOf() == Setup(old(DeckOf()), ds.total)
      ensures ShowsDataSource(visibleCards, ds)
      ensures RestingLayout()
      ensures animatedAppearing ==> animating && !userInteractionEnabled && pendingAppear
      ensures !animatedAppearing ==>
                && animating == old(animating) && userInteractionEnabled == old(userInteractionEnabled)
                && pendingAppear == old(pendingAppear)
      ensures Took(old(Pool()), ViewsOf(visibleCards), Pool())
    {
      PlaceInitialCards(ds);
      if animatedAppearing {
        ApplyAppearAnimation();
      }
    }

    /** The initial population of an empty window followed by a layout. */
    method PlaceInitialCards(ds: DataSource)
      requires Valid() && |visibleCards| == 0
      modifies recycler, this`visibleCards
      ensures Valid() && RegistriesUnchanged()
      ensures DeckOf() == Setup(old(DeckOf()), ds.total)
      ensures ShowsDataSource(visibleCards, ds)
      ensures RestingLayout()
      ensures Took(old(Pool()), ViewsOf(visibleCards), Pool())
    {
      SetupCards(ds);
      assert visibleCards[0..] == visibleCards;
      ghost var views := ViewsOf(visibleCards);
      LayoutCards();
      assert ViewsOf(visibleCards) == views;
    }

    // -------------------------------------------------------------------
    // Movement

    /** While the front card is dragged `percent` of the way, every card
      behind it moves that fraction of the way from its own resting frame to
      the resting frame of the card ahead; the card right behind the front
      becomes opaque. The front card is untouched. */
    method MoveOtherCardsWithFinishPercent(percent: real)
      modifies this`visibleCards
      ensures |visibleCards| == |old(visibleCards)|
      ensures |visibleCards| > 0 ==> visibleCards[0] == old(visibleCards[0])
      ensures forall i :: 1 <= i < |visibleCards| ==>
                visibleCards[i] == old(visibleCards[i]).(
                  frame := CalculateFrame(FrameAt(i), FrameAt(i - 1), percent),
                  alpha := if i == 1 then Opaque else old(visibleCards[i]).alpha)
      ensures DeckOf() == old(DeckOf())
    {
      if |visibleCards| > 1 {
        for index := 1 to |visibleCards|
          invariant |visibleCards| == |old(visibleCards)|
          invariant visibleCards[0] == old(visibleCards[0])
          invariant forall i :: 1 <= i < index ==>
                      visibleCards[i] == old(visibleCards[i]).(
                        frame := CalculateFrame(FrameAt(i), FrameAt(i - 1), percent),
                        alpha := if i == 1 then Opaque else old(visibleCards[i]).alpha)
          invariant forall i :: index <= i < |visibleCards| ==> visibleCards[i] == old(visibleCards[i])
        {
          var card := visibleCards[index].(frame := CalculateFrame(FrameAt(index), FrameAt(index - 1), percent));
          if 1 == index {
            card := card.(alpha := Opaque);
          }
          visibleCards := visibleCards[index := card];
        }
      }
      forall i | 0 <= i < |visibleCards|
        ensures visibleCards[i].deck == old(visibleCards[i]).deck
      {
        if i > 0 {
          assert visibleCards[i] == old(visibleCards[i]).(
            frame := CalculateFrame(FrameAt(i), FrameAt(i - 1), percent),
            alpha := if i == 1 then Opaque else old(visibleCards[i]).alpha);
        }
      }
      assert Decks(visibleCards) == Decks(old(visibleCards));
    }

    /** Every card but the front one becomes semi-transparent. The range
      `1..<count` needs at least one card. */
    method ResetVisibleCardsTransparency()
      requires |visibleCards| >= 1
      modifies this`visibleCards
      ensures |visibleCards| == |old(visibleCards)|
      ensures visibleCards[0] == old(visibleCards[0])
      ensures forall i :: 1 <= i < |visibleCards| ==> visibleCards[i] == old(visibleCards[i]).(alpha := SemiTransparent)
      ensures DeckOf() == old(DeckOf())
    {
      for index := 1 to |visibleCards|
        invariant |visibleCards| == |old(visibleCards)|
        invariant visibleCards[0] == old(visibleCards[0])
        invariant forall i :: 1 <= i < index ==> visibleCards[i] == old(visibleCards[i]).(alpha := SemiTransparent)
        invariant forall i :: index <= i < |visibleCards| ==> visibleCards[i] == old(visibleCards[i])
      {
        visibleCards := visibleCards[index := visibleCards[index].(alpha := SemiTransparent)];
      }
      assert Decks(visibleCards) == Decks(old(visibleCards));
    }

    // -------------------------------------------------------------------
    // Reactions to the cards

    /** The first window position of the card object `view`. */
    method FindCard(view: View) returns (found: Option<nat>)
      ensures found == IndexOf(visibleCards, view)
    {
      var i := 0;
      while i < |visibleCards|
        invariant 0 <= i <= |visibleCards|
        invariant forall j :: 0 <= j < i ==> visibleCards[j].view != view
      {
        if visibleCards[i].view == view {
          return Some(i);
        }
        i := i + 1;
      }
      return Nil;
    }

    /** A tap reports the deck position `counter + window position` of the
      tapped card; a card outside the window raises an exception. */
    method CardTapped(view: View) returns (o: Outcome)
      modifies this`events
      ensures IndexOf(visibleCards, view).Some? ==>
                o == Completed && events == old(events) + [DidSelect(currentCardNumber + IndexOf(visibleCards, view).value)]
      ensures IndexOf(visibleCards, view).Nil? ==> o == Raised(CardNotFound) && events == old(events)
    {
      var foundIndex := FindCard(view);
      if foundIndex.Some? {
        events := events + [DidSelect(currentCardNumber + foundIndex.value)];
        o := Completed;
      } else {
        o := Raised(CardNotFound);
      }
    }

    /** A card released without a commit: the controller disables itself,
      reports the end of the interaction and moves the other cards back to
      their resting frames, standardised by the interpolation (the same
      frames whenever the container is tall enough for the stack, see
      FrameNonNegative); it is enabled again at once when no other card is
      shown, else when that movement completes. */
    method CardReleased()
      modifies this`enabled, this`userInteractionEnabled, this`events, this`visibleCards,
               this`animating, this`pendingRelease
      ensures events == old(events) + [InteractionEnded(currentCardNumber)]
      ensures DeckOf() == old(DeckOf())
      ensures |visibleCards| > 1 ==>
                && !enabled && !userInteractionEnabled && pendingRelease && animating == old(animating)
                && visibleCards[0] == old(visibleCards[0])
                && forall i :: 1 <= i < |visibleCards| ==>
                     visibleCards[i] == old(visibleCards[i]).(
                       frame := Standardized(FrameAt(i)),
                       alpha := if i == 1 then Opaque else old(visibleCards[i]).alpha)
      ensures |visibleCards| <= 1 ==>
                enabled && userInteractionEnabled && !animating && visibleCards == old(visibleCards)
                && pendingRelease == old(pendingRelease)
    {
      SetEnabled(false);
      events := events + [InteractionEnded(currentCardNumber)];
      if 1 < |visibleCards| {
        MoveOtherCardsWithFinishPercent(0.0);
        forall i | 1 <= i < |visibleCards|
          ensures visibleCards[i] == old(visibleCards[i]).(
                    frame := Standardized(FrameAt(i)),
                    alpha := if i == 1 then Opaque else old(visibleCards[i]).alpha)
        {
          assert CalculateFrame(FrameAt(i), FrameAt(i - 1), 0.0) == Standardized(FrameAt(i));
        }
        pendingRelease := true;
      } else {
        animating := false;
        SetEnabled(true);
      }
    }

    /** The completion of the move back after a release: every card but the
      front one is semi-transparent again and the controller is enabled. */
    method CompleteReleaseAnimation() returns (o: Outcome)
      requires pendingRelease
      modifies this`enabled, this`userInteractionEnabled, this`visibleCards, this`animating, this`pendingRelease
      ensures o == Trapped <==> |old(visibleCards)| == 0
      ensures o == Completed ==>
                && !animating && enabled && userInteractionEnabled && !pendingRelease
                && |visibleCards| == |old(visibleCards)| && visibleCards[0] == old(visibleCards[0])
                && forall i :: 1 <= i < |visibleCards| ==> visibleCards[i] == old(visibleCards[i]).(alpha := SemiTransparent)
    {
      if |visibleCards| == 0 {
        return Trapped;
      }
      ResetVisibleCardsTransparency();
      animating := false;
      SetEnabled(true);
      pendingRelease := false;
      o := Completed;
    }

    /** The front card starts moving: the controller is busy. */
    method CardMovementStarted()
      modifies this`animating, this`events
      ensures animating
      ensures events == old(events) + [InteractionStarted(currentCardNumber)]
    {
      animating := true;
      events := events + [InteractionStarted(currentCardNumber)];
    }

    /** The front card is dragged: the cards behind follow, and the progress
      is reported. */
    method CardDragged(percent: real, direction: Direction)
      modifies this`visibleCards, this`events
      ensures events == old(events) + [DidDrag(percent, direction)]
      ensures DeckOf() == old(DeckOf())
      ensures |visibleCards| == |old(visibleCards)|
      ensures |visibleCards| > 0 ==> visibleCards[0] == old(visibleCards[0])
      ensures forall i :: 1 <= i < |visibleCards| ==>
                visibleCards[i] == old(visibleCards[i]).(
                  frame := CalculateFrame(FrameAt(i), FrameAt(i - 1), percent),
                  alpha := if i == 1 then Opaque else old(visibleCards[i]).alpha)
    {
      MoveOtherCardsWithFinishPercent(percent);
      events := events + [DidDrag(percent, direction)];
    }

    /** Every card but the first of `before` moved one position forward into
      the resting layout of its new position. */
    predicate ShiftedIntoPlace(before: seq<Card>, after: seq<Card>)
    {
      && |after| >= |before| - 1
      && forall i :: 0 <= i < |before| - 1 ==>
           after[i] == before[i + 1].(
             frame := FrameAt(i),
             alpha := if i == 0 then Opaque else SemiTransparent,
             interactive := i == 0)
    }

    /** The last card of `cards` was created for deck index `index` and put
      hidden behind at least one other card, at the frame of its position,
      semi-transparent and not interactive. */
    predicate AppendedBehind(cards: seq<Card>, index: nat, ds: DataSource)
    {
      && |cards| >= 2
      && var last := cards[|cards| - 1];
         last == Created(last.view, index, ds).(
                   hidden := true, frame := FrameAt(|cards| - 1), alpha := SemiTransparent, interactive := false)
    }

    /** The window after a committed swipe out of `before`, taken from the
      deck `deckBefore`: the deck made its step, the remaining cards moved
      one position forward into place, a card appended for the next deck
      index waits hidden behind them, and the cards left rest in the
      layout, waiting for the swipe animation in `direction`. */
    predicate SwipedOut(before: seq<Card>, deckBefore: Deck, ds: DataSource, direction: Direction)
      reads this`visibleCards, this`currentCardNumber, this`pendingSwipe
    {
      && |deckBefore.window| > 0
      && DeckOf() == KolodaDeck.Swipe(deckBefore, ds.total)
      && ShiftedIntoPlace(before, visibleCards)
      && (SwipeAppends(currentCardNumber, ds.total) ==>
            AppendedBehind(visibleCards, currentCardNumber + CountOfVisibleCards - 1, ds))
      && (|visibleCards| > 0 ==> RestingLayout() && pendingSwipe == Some(direction))
    }

    /** A committed swipe of the card `swiped`: the controller disables itself
      and reports the end of the interaction, recycles the swiped card, drops
      the front card, advances the counter, appends a hidden card when the
      deck has one more to show, and either moves the cards into place or,
      with the window empty, reports the swipe and that the deck ran out. */
    method CardSwiped(swiped: Card, direction: Direction, ds: DataSource) returns (o: Outcome)
      requires Valid()
      modifies recycler, this`enabled, this`userInteractionEnabled, this`events, this`visibleCards,
               this`currentCardNumber, this`animating, this`pendingSwipe
      ensures Valid() && RegistriesUnchanged()
      ensures o == Completed || o == Trapped
      ensures o == Trapped <==>
                |old(visibleCards)| == 0
                || (|old(visibleCards)| == 1 && SwipeAppends(old(currentCardNumber) + 1, ds.total))
      ensures o == Trapped ==>
                !enabled && !userInteractionEnabled
                && events == old(events) + [InteractionEnded(old(currentCardNumber))]
      ensures o == Completed ==> SwipedOut(old(visibleCards), old(DeckOf()), ds, direction)
      ensures o == Completed && |visibleCards| > 0 ==>
                && !enabled && !userInteractionEnabled && animating == old(animating)
                && events == old(events) + [InteractionEnded(old(currentCardNumber))]
      ensures o == Completed && |visibleCards| == 0 ==>
                && enabled && userInteractionEnabled && !animating
                && events == old(events) + [InteractionEnded(old(currentCardNumber)),
                                            DidSwipe(old(currentCardNumber), direction), DidRunOutOfCards]
      ensures !SwipeAppends(old(currentCardNumber) + 1, ds.total) ==>
                recycler.unusedItems == old(recycler.unusedItems) + CardViews(swiped)
      ensures TookForAppended(Recycled(old(Pool()), [swiped]), o == Completed && SwipeAppends(old(currentCardNumber) + 1, ds.total),
                              visibleCards, Pool())
    {
      SetEnabled(false);
      events := events + [InteractionEnded(currentCardNumber)];
      Recycle(swiped);
      assert Released([swiped]) == CardViews(swiped);
      if |visibleCards| == 0 {
        return Trapped;
      }
      ghost var ended := events;
      assert visibleCards == old(visibleCards) && DeckOf() == old(DeckOf());
      o := SwipeOutFrontCard(ds, direction);
      assert ended + [DidSwipe(old(currentCardNumber), direction), DidRunOutOfCards]
             == old(events) + [InteractionEnded(old(currentCardNumber)), DidSwipe(old(currentCardNumber), direction), DidRunOutOfCards];
    }

    /** The window part of a committed swipe: the deck step, then the
      settling of the cards that are left. */
    method SwipeOutFrontCard(ds: DataSource, direction: Direction) returns (o: Outcome)
      requires Valid() && |visibleCards| > 0
      modifies recycler, this`enabled, this`userInteractionEnabled, this`events, this`visibleCards,
               this`currentCardNumber, this`animating, this`pendingSwipe
      ensures Valid() && RegistriesUnchanged()
      ensures o == Completed || o == Trapped
      ensures o == Trapped <==> |old(visibleCards)| == 1 && SwipeAppends(old(currentCardNumber) + 1, ds.total)
      ensures o == Trapped ==>
                enabled == old(enabled) && userInteractionEnabled == old(userInteractionEnabled) && events == old(events)
      ensures o == Completed ==> SwipedOut(old(visibleCards), old(DeckOf()), ds, direction)
      ensures o == Completed && |visibleCards| > 0 ==>
                && enabled == old(enabled) && userInteractionEnabled == old(userInteractionEnabled)
                && animating == old(animating) && events == old(events)
      ensures o == Completed && |visibleCards| == 0 ==>
                && enabled && userInteractionEnabled && !animating
                && events == old(events) + [DidSwipe(old(currentCardNumber), direction), DidRunOutOfCards]
      ensures !SwipeAppends(old(currentCardNumber) + 1, ds.total) ==> recycler.unusedItems == old(recycler.unusedItems)
      ensures TookForAppended(old(Pool()), o == Completed && SwipeAppends(old(currentCardNumber) + 1, ds.total), visibleCards, Pool())
    {
      o := AdvancePastFrontCard(ds);
      if o == Trapped {
        return;
      }
      SettleAfterSwipe(old(visibleCards), old(DeckOf()), ds, direction);
    }

    /** The last step of a committed swipe out of `before`: the cards move
      into place, or, with the window empty, the swipe and the end of the
      deck are reported. */
    method SettleAfterSwipe(ghost before: seq<Card>, ghost deckBefore: Deck, ghost ds: DataSource, direction: Direction)
      requires AdvancedPast(before, deckBefore, ds)
      modifies this`visibleCards, this`pendingSwipe, this`animating, this`enabled,
               this`userInteractionEnabled, this`events
      ensures SwipedOut(before, deckBefore, ds, direction)
      ensures ViewsOf(visibleCards) == ViewsOf(old(visibleCards))
      ensures |visibleCards| > 0 ==>
                && enabled == old(enabled) && userInteractionEnabled == old(userInteractionEnabled)
                && animating == old(animating) && events == old(events)
      ensures |visibleCards| == 0 ==>
                && enabled && userInteractionEnabled && !animating
                && events == old(events) + [DidSwipe(currentCardNumber - 1, direction), DidRunOutOfCards]
    {
      if |visibleCards| > 0 {
        MoveCardsInDeckAfterSwipe(direction);
        assert ViewsOf(visibleCards) == ViewsOf(old(visibleCards));
        forall i | 0 <= i < |before| - 1
          ensures visibleCards[i] == before[i + 1].(
                    frame := FrameAt(i), alpha := if i == 0 then Opaque else SemiTransparent, interactive := i == 0)
        {
          assert old(visibleCards[i]) == before[i + 1];
        }
        if SwipeAppends(currentCardNumber, ds.total) {
          var n := |visibleCards| - 1;
          assert visibleCards[n] == old(visibleCards[n]).(frame := FrameAt(n), alpha := SemiTransparent, interactive := false);
        }
      } else {
        DidSwipeLastCard(direction);
      }
    }

    /** The window after the deck step of a committed swipe out of `before`,
      taken from the deck `deckBefore`: the deck made its step, the remaining
      cards moved one position forward, and a card created for the next deck
      index waits hidden behind at least one other card. */
    predicate AdvancedPast(before: seq<Card>, deckBefore: Deck, ds: DataSource)
      reads this`visibleCards, this`currentCardNumber
    {
      && |deckBefore.window| > 0
      && DeckOf() == KolodaDeck.Swipe(deckBefore, ds.total)
      && |visibleCards| >= |before| - 1
      && (forall i :: 0 <= i < |before| - 1 ==> visibleCards[i] == before[i + 1])
      && (SwipeAppends(currentCardNumber, ds.total) ==>
            && |visibleCards| >= 2
            && var last := visibleCards[|visibleCards| - 1];
               last == Created(last.view, currentCardNumber + CountOfVisibleCards - 1, ds).(hidden := true, interactive := true))
    }

    /** The deck step of a committed swipe: the front card leaves the window,
      the counter advances, and a hidden card is appended when the deck has
      one more to show, which needs a last card to insert it behind. */
    method AdvancePastFrontCard(ds: DataSource) returns (o: Outcome)
      requires Valid() && |visibleCards| > 0
      modifies recycler, this`visibleCards, this`currentCardNumber
      ensures Valid() && RegistriesUnchanged()
      ensures o == Completed || o == Trapped
      ensures o == Trapped <==> |old(visibleCards)| == 1 && SwipeAppends(old(currentCardNumber) + 1, ds.total)
      ensures o == Completed ==> AdvancedPast(old(visibleCards), old(DeckOf()), ds)
      ensures !SwipeAppends(old(currentCardNumber) + 1, ds.total) ==> recycler.unusedItems == old(recycler.unusedItems)
      ensures TookForAppended(old(Pool()), o == Completed && SwipeAppends(old(currentCardNumber) + 1, ds.total), visibleCards, Pool())
    {
      DecksDropFront(visibleCards);
      visibleCards := visibleCards[1..];
      currentCardNumber := currentCardNumber + 1;
      var totalCards := ds.total;
      var shownCardsCount := currentCardNumber + CountOfVisibleCards;
      if shownCardsCount - 1 < totalCards {
        if |visibleCards| == 0 {
          return Trapped;
        }
        ghost var rest := visibleCards;
        InsertNewCardInStack(ds, shownCardsCount - 1);
        assert AdvancedPast(old(visibleCards), old(DeckOf()), ds) by {
          assert forall i :: 0 <= i < |rest| ==> visibleCards[i] == rest[i];
          assert DeckOf() == KolodaDeck.Swipe(old(DeckOf()), ds.total);
          assert visibleCards[|visibleCards| - 1] == Created(visibleCards[|visibleCards| - 1].view, shownCardsCount - 1, ds).(hidden := true, interactive := true);
        }
        assert TookForAppended(old(Pool()), SwipeAppends(old(currentCardNumber) + 1, ds.total), visibleCards, Pool());
      } else {
        assert AdvancedPast(old(visibleCards), old(DeckOf()), ds) by {
          assert DeckOf() == KolodaDeck.Swipe(old(DeckOf()), ds.total);
        }
      }
      o := Completed;
    }

    /** Appends a hidden, interactive card for deck index `index` behind the
      last card (which must exist). */
    method InsertNewCardInStack(ds: DataSource, index: nat)
      requires Valid() && |visibleCards| > 0
      modifies recycler, this`visibleCards
      ensures Valid() && RegistriesUnchanged()
      ensures |visibleCards| == |old(visibleCards)| + 1
      ensures var last := visibleCards[|visibleCards| - 1];
              && visibleCards == old(visibleCards) + [last]
              && last == Created(last.view, index, ds).(hidden := true, interactive := true)
      ensures Decks(visibleCards) == Decks(old(visibleCards)) + [index]
      ensures recycler.unusedItems <= old(recycler.unusedItems)
      ensures TookForAppended(old(Pool()), true, visibleCards, Pool())
    {
      var cardView := CreateCard(ds, index);
      cardView := cardView.(hidden := true, interactive := true);
      visibleCards := visibleCards + [cardView];
    }

    /** Moves every card to the frame of its new position; the front card
      becomes opaque and interactive, the others semi-transparent and not
      interactive. The front card's movement has a completion block. */
    method MoveCardsInDeckAfterSwipe(direction: Direction)
      requires |visibleCards| > 0
      modifies this`visibleCards, this`pendingSwipe
      ensures |visibleCards| == |old(visibleCards)|
      ensures forall i :: 0 <= i < |visibleCards| ==>
                visibleCards[i] == old(visibleCards[i]).(
                  frame := FrameAt(i),
                  alpha := if i == 0 then Opaque else SemiTransparent,
                  interactive := i == 0)
      ensures RestingLayout() && DeckOf() == old(DeckOf())
      ensures pendingSwipe == Some(direction)
    {
      for index := 0 to |visibleCards|
        invariant |visibleCards| == |old(visibleCards)|
        invariant forall i :: 0 <= i < index ==>
                    visibleCards[i] == old(visibleCards[i]).(
                      frame := FrameAt(i),
                      alpha := if i == 0 then Opaque else SemiTransparent,
                      interactive := i == 0)
        invariant forall i :: index <= i < |visibleCards| ==> visibleCards[i] == old(visibleCards[i])
      {
        visibleCards := visibleCards[index := visibleCards[index].(
                          frame := FrameAt(index),
                          alpha := if index == 0 then Opaque else SemiTransparent,
                          interactive := index == 0)];
      }
      pendingSwipe := Some(direction);
      assert Decks(visibleCards) == Decks(old(visibleCards));
    }

    /** The completion of the front card's movement after a swipe: the last
      card is shown, the controller is enabled, and the swipe of deck
      position `counter - 1` is reported. */
    method CompleteSwipeAnimation()
      requires pendingSwipe.Some?
      modifies this`visibleCards, this`animating, this`enabled, this`userInteractionEnabled,
               this`events, this`pendingSwipe
      ensures |visibleCards| == |old(visibleCards)|
      ensures |visibleCards| > 0 ==>
                visibleCards == old(visibleCards)[|visibleCards| - 1 := old(visibleCards)[|visibleCards| - 1].(hidden := false)]
      ensures !animating && enabled && userInteractionEnabled && pendingSwipe == Nil
      ensures events == old(events) + [DidSwipe(currentCardNumber - 1, old(pendingSwipe).value)]
    {
      if |visibleCards| > 0 {
        var last := |visibleCards| - 1;
        visibleCards := visibleCards[last := visibleCards[last].(hidden := false)];
      }
      animating := false;
      SetEnabled(true);
      events := events + [DidSwipe(currentCardNumber - 1, pendingSwipe.value)];
      pendingSwipe := Nil;
    }

    /** The swipe emptied the window: the controller is enabled, and the swipe
      and the end of the deck are reported. */
    method DidSwipeLastCard(direction: Direction)
      modifies this`animating, this`enabled, this`userInteractionEnabled, this`events
      ensures !animating && enabled && userInteractionEnabled
      ensures events == old(events) + [DidSwipe(currentCardNumber - 1, direction), DidRunOutOfCards]
    {
      animating := false;
      SetEnabled(true);
      events := events + [DidSwipe(currentCardNumber - 1, direction), DidRunOutOfCards];
    }

    // -------------------------------------------------------------------
    // Revert

    /** Reverting is possible once a card was consumed and nothing moves. */
    predicate CanRevertCard()
      reads this`currentCardNumber, this`animating
    {
      0 < currentCardNumber && !animating
    }

    /** Brings the last consumed card back: drops the back card (without
      recycling it) when at least a window's worth of cards is left, steps the
      counter back, puts a transparent card for the counter's position in
      front, fading in, and moves the other cards back. No delegate is told.
      The source returns nothing; `reverted` only tells the caller whether
      the revert acted. */
    method RevertLastCard(ds: DataSource) returns (reverted: bool)
      requires Valid()
      modifies recycler, this`visibleCards, this`currentCardNumber, this`animating, this`pendingRevert
      ensures Valid() && RegistriesUnchanged()
      ensures reverted == old(CanRevertCard())
      ensures !reverted ==>
                && visibleCards == old(visibleCards) && currentCardNumber == old(currentCardNumber)
                && animating == old(animating) && pendingRevert == old(pendingRevert)
                && Pool() == old(Pool())
      ensures reverted ==> DeckOf() == KolodaDeck.Revert(old(DeckOf()), ds.total)
      ensures reverted ==>
                && visibleCards[0] == Created(visibleCards[0].view, currentCardNumber, ds).(frame := FrameAt(0), alpha := Transparent)
                && animating && pendingRevert == Some(visibleCards[0].view)
      ensures reverted ==> forall i :: 1 <= i < |visibleCards| ==>
                visibleCards[i] == old(visibleCards[i - 1]).(alpha := SemiTransparent, interactive := false, frame := FrameAt(i))
      ensures reverted ==> Took(old(Pool()), [visibleCards[0].view], Pool())
      ensures recycler.unusedItems <= old(recycler.unusedItems)
    {
      if !CanRevertCard() {
        return false;
      }
      var remainingCards := ds.total - currentCardNumber;
      if |visibleCards| > 0 && CountOfVisibleCards <= remainingCards {
        visibleCards := visibleCards[..|visibleCards| - 1];
      }
      ghost var kept := visibleCards;
      currentCardNumber := currentCardNumber - 1;
      AnimateBackLastCard(ds);
      ghost var inserted := visibleCards;
      MoveCardsInDeckAfterRevert();
      assert Decks(visibleCards)[1..] == Decks(kept);
      reverted := true;
    }

    /** A transparent card for the counter's position goes in front at the
      front frame, and its fade-in starts. */
    method AnimateBackLastCard(ds: DataSource)
      requires Valid()
      modifies recycler, this`visibleCards, this`animating, this`pendingRevert
      ensures Valid() && RegistriesUnchanged()
      ensures |visibleCards| == |old(visibleCards)| + 1 && visibleCards[1..] == old(visibleCards)
      ensures visibleCards[0] == Created(visibleCards[0].view, currentCardNumber, ds).(frame := FrameAt(0), alpha := Transparent)
      ensures animating && pendingRevert == Some(visibleCards[0].view)
      ensures recycler.unusedItems <= old(recycler.unusedItems)
      ensures Took(old(Pool()), [visibleCards[0].view], Pool())
    {
      var card := CreateCard(ds, currentCardNumber);
      card := card.(frame := FrameAt(0), alpha := Transparent);
      visibleCards := [card] + visibleCards;
      ApplyRevertAnimation(card.view);
    }

    method ApplyRevertAnimation(view: View)
      modifies this`animating, this`pendingRevert
      ensures animating && pendingRevert == Some(view)
    {
      animating := true;
      pendingRevert := Some(view);
    }

    /** The revert fade-in completes: the card it ran on is opaque wherever it
      is in the window, and the controller is no longer busy. */
    method CompleteRevertAnimation()
      requires pendingRevert.Some?
      modifies this`visibleCards, this`animating, this`pendingRevert
      ensures !animating && pendingRevert == Nil
      ensures var k := IndexOf(old(visibleCards), old(pendingRevert).value);
              && (k.Some? ==> visibleCards == old(visibleCards)[k.value := old(visibleCards)[k.value].(alpha := Opaque)])
              && (k.Nil? ==> visibleCards == old(visibleCards))
    {
      var k := FindCard(pendingRevert.value);
      if k.Some? {
        visibleCards := visibleCards[k.value := visibleCards[k.value].(alpha := Opaque)];
      }
      animating := false;
      pendingRevert := Nil;
    }

    /** Every card behind the front one becomes semi-transparent, not
      interactive, and moves to the frame of its position. */
    method MoveCardsInDeckAfterRevert()
      requires |visibleCards| >= 1
      modifies this`visibleCards
      ensures |visibleCards| == |old(visibleCards)| && visibleCards[0] == old(visibleCards[0])
      ensures forall i :: 1 <= i < |visibleCards| ==>
                visibleCards[i] == old(visibleCards[i]).(alpha := SemiTransparent, interactive := false, frame := FrameAt(i))
      ensures DeckOf() == old(DeckOf())
    {
      for index := 1 to |visibleCards|
        invariant |visibleCards| == |old(visibleCards)| && visibleCards[0] == old(visibleCards[0])
        invariant forall i :: 1 <= i < index ==>
                    visibleCards[i] == old(visibleCards[i]).(alpha := SemiTransparent, interactive := false, frame := FrameAt(i))
        invariant forall i :: index <= i < |visibleCards| ==> visibleCards[i] == old(visibleCards[i])
      {
        visibleCards := visibleCards[index := visibleCards[index].(
                          alpha := SemiTransparent, interactive := false, frame := FrameAt(index))];
      }
      assert Decks(visibleCards) == Decks(old(visibleCards));
    }

    // -------------------------------------------------------------------
    // Appear animation

    method ApplyAppearAnimation()
      modifies this`animating, this`userInteractionEnabled, this`pendingAppear
      ensures animating && !userInteractionEnabled && pendingAppear
    {
      animating := true;
      userInteractionEnabled := false;
      pendingAppear := true;
    }

    /** The appear animation completes: interaction is back on (the `enabled`
      flag itself is not touched) and the controller is not busy. */
    method CompleteAppearAnimation()
      requires pendingAppear
      modifies this`animating, this`userInteractionEnabled, this`pendingAppear
      ensures userInteractionEnabled && !animating && !pendingAppear
    {
      userInteractionEnabled := true;
      animating := false;
      pendingAppear := false;
    }

    // -------------------------------------------------------------------
    // Programmatic swipe

    /** The public swipe: with a front card, enabled and not busy, the
      controller becomes busy, asks the front card object `cardOnTop` to
      swipe, and makes the card behind it opaque. A `None` direction still
      leaves the controller busy while the card ignores it, so no completion
      ever clears the busy flag. */
    method Swipe(direction: Direction, cardOnTop: KolodaCard.KolodaCardView, screenWidth: real) returns (forwarded: bool)
      requires |visibleCards| > 0 ==> cardOnTop.AsView() == visibleCards[0].view
      modifies this`animating, this`visibleCards, cardOnTop
      ensures forwarded == (|old(visibleCards)| > 0 && old(enabled) && !old(animating))
      ensures !forwarded ==>
                && animating == old(animating) && visibleCards == old(visibleCards)
                && cardOnTop.pendingSide == old(cardOnTop.pendingSide)
                && cardOnTop.acceptsAction == old(cardOnTop.acceptsAction)
      ensures !forwarded ==> unchanged(cardOnTop)
      ensures forwarded ==> cardOnTop.SwipedAs(direction, screenWidth)
      ensures forwarded ==> animating && |visibleCards| == |old(visibleCards)|
      ensures forwarded ==> forall i :: 0 <= i < |visibleCards| ==>
                visibleCards[i] == if i == 1 then old(visibleCards[i]).(alpha := Opaque) else old(visibleCards[i])
      ensures forwarded && old(cardOnTop.acceptsAction) && direction != None ==>
                cardOnTop.pendingSide == Some(direction) && !cardOnTop.acceptsAction
      ensures forwarded && direction == None ==>
                animating && cardOnTop.pendingSide == old(cardOnTop.pendingSide)
      ensures DeckOf() == old(DeckOf())
    {
      if |visibleCards| > 0 && enabled && !animating {
        animating := true;
        cardOnTop.Swipe(direction, screenWidth);
        if 1 < |visibleCards| {
          visibleCards := visibleCards[1 := visibleCards[1].(alpha := Opaque)];
        }
        assert Decks(visibleCards) == Decks(old(visibleCards));
        return true;
      }
      return false;
    }
  }
}
