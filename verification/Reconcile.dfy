/** Keyed reconciliation of a container's child nodes with a new list, as done for tunnel
    cards (renderTunnels) and for client rows (refresh): known nodes are reused and moved
    only when out of place, missing ones are built, left-over ones removed. */
module Reconcile {
  import opened Selecting

  /** Card: a tunnel card or a table row. Placeholder: the "nothing here" node. */
  datatype Kind = Card | Placeholder | Other

  class Node {
    const kind: Kind
    const id: string // dataset.id; empty when absent

    constructor (kind: Kind, id: string)
      ensures this.kind == kind && this.id == id
    {
      this.kind, this.id := kind, id;
    }
  }

  function IsCard(): Node -> bool { (n: Node) => n.kind.Card? }

  function IsNoCard(): Node -> bool { (n: Node) => !n.kind.Card? }

  function NotIn(gone: set<Node>): Node -> bool { (n: Node) => n !in gone }

  function Cards(s: seq<Node>): seq<Node> { Keep(s, IsCard()) }

  function Others(s: seq<Node>): seq<Node> { Keep(s, IsNoCard()) }

  function Members(s: seq<Node>): set<Node> { set n | n in s }

  /** The lookup table: for each non-empty id the last card that carries it. */
  function Index(cards: seq<Node>): map<string, Node> {
    if cards == [] then map[]
    else
      var n := |cards| - 1;
      var before := Index(cards[..n]);
      if cards[n].id == "" then before else before[cards[n].id := cards[n]]
  }

  /** The cards the table does not know: no id, or an id that a later card carries too. */
  function Unindexed(s: seq<Node>): seq<Node> {
    Keep(Cards(s), NotIn(Index(Cards(s)).Values))
  }

  /** insertBefore: the node leaves its old place, if any, and lands before position at. */
  function Inserted(s: seq<Node>, x: Node, at: nat): seq<Node>
    requires at <= |s|
  {
    Keep(s[..at], NotIn({x})) + [x] + Keep(s[at..], NotIn({x}))
  }

  lemma NoCards()
    ensures Index(Cards([])) == map[]
  {
  }

  lemma OneMoreChild(s: seq<Node>, n: Node)
    ensures Index(Cards(s + [n]))
         == if n.kind.Card? && n.id != "" then Index(Cards(s))[n.id := n] else Index(Cards(s))
  {
    assert (s + [n])[..|s|] == s;
    if n.kind.Card? {
      assert Cards(s + [n]) == Cards(s) + [n];
      assert (Cards(s) + [n])[..|Cards(s)|] == Cards(s);
    } else {
      assert Cards(s + [n]) == Cards(s);
    }
  }

  lemma {:induction false} IndexSound(cards: seq<Node>)
    ensures forall id :: id in Index(cards) ==> id != "" && Index(cards)[id] in cards && Index(cards)[id].id == id
    ensures forall c :: c in cards && c.id != "" ==> c.id in Index(cards)
  {
    if cards != [] {
      IndexSound(cards[..|cards| - 1]);
      assert cards == cards[..|cards| - 1] + [cards[|cards| - 1]];
    }
  }

  /** Every card is in the table exactly when ids are non-empty and pairwise distinct. */
  lemma AllIndexedExactlyWhen(s: seq<Node>)
    requires Distinct(s)
    ensures Unindexed(s) == [] <==>
            (forall c :: c in Cards(s) ==> c.id != "") &&
            (forall i, j :: 0 <= i < j < |Cards(s)| ==> Cards(s)[i].id != Cards(s)[j].id)
  {
    hide Keep, Index;
    var cards, index := Cards(s), Index(Cards(s));
    KeepDistinct(s, IsCard());
    IndexSound(cards);
    KeepNone(cards, NotIn(index.Values));
    if Unindexed(s) == [] {
      forall i | 0 <= i < |cards| ensures cards[i].id in index && index[cards[i].id] == cards[i] {
        assert !NotIn(index.Values)(cards[i]);
      }
      forall c | c in cards ensures c.id != "" {
        var i :| 0 <= i < |cards| && cards[i] == c;
        assert cards[i].id in index;
      }
    } else {
      var i :| 0 <= i < |cards| && NotIn(index.Values)(cards[i]);
      if cards[i].id != "" {
        var other := index[cards[i].id];
        assert other in index.Values;
        var j :| 0 <= j < |cards| && cards[j] == other;
        assert i != j && cards[i].id == cards[j].id;
      }
    }
  }

  lemma InsertedWhereItIs(s: seq<Node>, at: nat)
    requires Distinct(s) && at < |s|
    ensures Inserted(s, s[at], at) == s
  {
    hide Keep;
    KeepAll(s[..at], NotIn({s[at]}));
    assert s[at..] == [s[at]] + s[at + 1..];
    KeepConcat([s[at]], s[at + 1..], NotIn({s[at]}));
    KeepAll(s[at + 1..], NotIn({s[at]}));
    KeepNone([s[at]], NotIn({s[at]}));
  }

  lemma InsertedDistinct(s: seq<Node>, x: Node, at: nat)
    requires Distinct(s) && at <= |s|
    ensures Distinct(Inserted(s, x, at))
    ensures forall n :: n in Inserted(s, x, at) <==> n in s || n == x
  {
    hide Keep;
    var a, b := Keep(s[..at], NotIn({x})), Keep(s[at..], NotIn({x}));
    KeepDistinct(s[..at], NotIn({x}));
    KeepDistinct(s[at..], NotIn({x}));
    forall i | 0 <= i < |a| ensures a[i] in s[..at] && a[i] != x { KeepMember(s[..at], NotIn({x}), a[i]); }
    forall j | 0 <= j < |b| ensures b[j] in s[at..] && b[j] != x { KeepMember(s[at..], NotIn({x}), b[j]); }
    forall i, j | 0 <= i < |a| && 0 <= j < |b| ensures a[i] != b[j] {
      var k :| 0 <= k < at && s[..at][k] == a[i];
      var l :| 0 <= l < |s| - at && s[at..][l] == b[j];
      assert s[k] != s[at + l];
    }
    forall n | n in s && n != x ensures n in Inserted(s, x, at) {
      KeepMember(s[..at], NotIn({x}), n);
      KeepMember(s[at..], NotIn({x}), n);
      assert s == s[..at] + s[at..];
    }
  }

  /** Leaving out first the placed nodes and then one more. */
  lemma LeaveOutOneMore(s: seq<Node>, placed: seq<Node>, x: Node)
    ensures Keep(Keep(s, NotIn(Members(placed))), NotIn({x})) == Keep(s, NotIn(Members(placed + [x])))
  {
    KeepTwice(s, NotIn(Members(placed)), NotIn({x}), NotIn(Members(placed + [x])));
  }

  // ---- The placing loop, as a step on sequences ----

  /** Cards before position at are the placed ones; behind it wait the old cards not yet placed. */
  ghost predicate PlacingCards(was: seq<Node>, s: seq<Node>, at: nat, placed: seq<Node>) {
    && at <= |s| && Distinct(s)
    && Cards(s[..at]) == placed
    && Cards(s[at..]) == Keep(Cards(was), NotIn(Members(placed)))
    && Others(s) == Others(was)
  }

  lemma PlaceCard(was: seq<Node>, s: seq<Node>, at: nat, to: nat, placed: seq<Node>, x: Node)
    requires PlacingCards(was, s, at, placed)
    requires at <= to <= |s| && (forall j :: at <= j < to ==> !s[j].kind.Card?) && (to < |s| ==> s[to].kind.Card?)
    requires x.kind.Card? && x !in placed
    ensures PlacingCards(was, Inserted(s, x, to), to + 1, placed + [x])
  {
    hide Keep, Distinct;
    var s' := Inserted(s, x, to);
    InsertedDistinct(s, x, to);
    SkipNonCards(s, at, to);
    forall j | 0 <= j < to ensures s[..to][j] != x {
      if s[j] == x { KeepMember(s[..to], IsCard(), x); }
    }
    KeepAll(s[..to], NotIn({x}));
    assert s'[..to + 1] == s[..to] + [x] && s'[to + 1..] == Keep(s[to..], NotIn({x}));
    KeepConcat(s[..to], [x], IsCard());
    KeepAll([x], IsCard());
    KeepCommutes(s[to..], NotIn({x}), IsCard());
    LeaveOutOneMore(Cards(was), placed, x);
    OthersIgnoreCards(s, x, to);
  }

  lemma SkipNonCards(s: seq<Node>, at: nat, to: nat)
    requires at <= to <= |s| && forall j :: at <= j < to ==> !s[j].kind.Card?
    ensures Cards(s[..to]) == Cards(s[..at]) && Cards(s[to..]) == Cards(s[at..])
  {
    hide Keep;
    KeepNone(s[at..to], IsCard());
    KeepConcat(s[..at], s[at..to], IsCard());
    KeepConcat(s[at..to], s[to..], IsCard());
    assert s[..to] == s[..at] + s[at..to] && s[at..] == s[at..to] + s[to..];
  }

  lemma OthersIgnoreCards(s: seq<Node>, x: Node, at: nat)
    requires x.kind.Card? && at <= |s|
    ensures Others(Inserted(s, x, at)) == Others(s)
  {
    hide Keep;
    var a, b, out := s[..at], s[at..], NotIn({x});
    OthersIgnoreRemoval(a, {x});
    OthersIgnoreRemoval(b, {x});
    KeepConcat(Keep(a, out) + [x], Keep(b, out), IsNoCard());
    KeepConcat(Keep(a, out), [x], IsNoCard());
    KeepNone([x], IsNoCard());
    KeepConcat(a, b, IsNoCard());
    assert s == a + b;
  }

  lemma OthersIgnoreRemoval(s: seq<Node>, gone: set<Node>)
    requires forall n :: n in gone ==> n.kind.Card?
    ensures Others(Keep(s, NotIn(gone))) == Others(s)
  {
    KeepTwice(s, NotIn(gone), IsNoCard(), IsNoCard());
  }

  /** Of the old cards, those neither placed nor left in the table are the ones it never knew. */
  lemma LeftOver(was: seq<Node>, cards: seq<Node>, placed: seq<Node>, gone: set<Node>)
    requires forall c :: c in cards ==> ((c in placed || c in gone) <==> c in Index(was).Values)
    ensures Keep(Keep(cards, NotIn(Members(placed))), NotIn(gone)) == Keep(cards, NotIn(Index(was).Values))
  {
    forall i | 0 <= i < |cards|
      ensures NotIn(Index(was).Values)(cards[i]) == (NotIn(Members(placed))(cards[i]) && NotIn(gone)(cards[i]))
    {
      assert cards[i] in cards;
    }
    KeepTwice(cards, NotIn(Members(placed)), NotIn(gone), NotIn(Index(was).Values));
  }

  lemma OnlyOthers(s: seq<Node>)
    requires Distinct(s)
    ensures Distinct(Others(s)) && Cards(Others(s)) == [] && Others(Others(s)) == Others(s)
    ensures forall i :: 0 <= i < |Others(s)| ==> Others(s)[i] in s
  {
    KeepDistinct(s, IsNoCard());
    forall i | 0 <= i < |Others(s)| ensures Others(s)[i] in s && IsNoCard()(Others(s)[i]) {
      KeepMember(s, IsNoCard(), Others(s)[i]);
    }
    KeepNone(Others(s), IsCard());
    KeepAll(Others(s), IsNoCard());
  }

  lemma AppendPlaceholder(s: seq<Node>, es: Node)
    requires !es.kind.Card?
    ensures Cards(s + [es]) == Cards(s) && Others(s + [es]) == Others(s) + [es]
  {
    KeepConcat(s, [es], IsCard());
    KeepConcat(s, [es], IsNoCard());
    KeepNone([es], IsCard());
    KeepAll([es], IsNoCard());
  }

  lemma TableOfCards(s: seq<Node>)
    ensures forall id :: id in Index(Cards(s)) ==> Index(Cards(s))[id].kind.Card? && Index(Cards(s))[id].id == id
    ensures forall id :: id in Index(Cards(s)) ==> Index(Cards(s))[id] in s
  {
    IndexSound(Cards(s));
    forall id | id in Index(Cards(s)) ensures Index(Cards(s))[id].kind.Card? && Index(Cards(s))[id] in s {
      KeepMember(s, IsCard(), Index(Cards(s))[id]);
    }
  }

  /** Nothing has been inserted exactly as long as the placed cards begin the old order. */
  ghost predicate Untouched(was: seq<Node>, s: seq<Node>, placed: seq<Node>, start: nat, insertions: nat) {
    && start <= insertions
    && (insertions == start ==> s == was)
    && (insertions == start <==> placed <= Cards(was))
  }

  lemma FirstCard(s: seq<Node>)
    ensures s == [] ==> Cards(s) == []
    ensures s != [] && s[0].kind.Card? ==> Cards(s) != [] && Cards(s)[0] == s[0]
  {
    if s != [] {
      KeepConcat([s[0]], s[1..], IsCard());
      assert s == [s[0]] + s[1..];
      if s[0].kind.Card? { KeepAll([s[0]], IsCard()); }
    }
  }

  lemma StartPlacing(was: seq<Node>, table: map<string, Node>, insertions: nat)
    requires Distinct(was)
    ensures PlacingCards(was, was, 0, []) && Placed([], [], table, was)
    ensures Untouched(was, was, [], insertions, insertions)
  {
    assert was[..0] == [] && was[0..] == was;
    KeepAll(Cards(was), NotIn(Members([])));
  }

  /** The card chosen for data[k] is not placed yet, and placing it keeps Placed. */
  lemma PlacedOneMore(placed: seq<Node>, data: seq<string>, k: nat, index: map<string, Node>, was: seq<Node>, card: Node)
    requires k < |data| && Placed(placed, data[..k], index, was) && index == Index(Cards(was))
    requires card.kind.Card? && card.id == data[k]
    requires if data[k] in index && data[k] !in data[..k] then card == index[data[k]] else card !in was && card !in placed
    ensures card !in placed
    ensures Placed(placed + [card], data[..k + 1], index, was)
  {
    hide Keep, Index;
    IndexSound(Cards(was));
    assert forall j :: 0 <= j < k ==> data[..k][..j] == data[..j] && data[..k + 1][..j] == data[..j];
    assert data[..k + 1][..k] == data[..k];
    forall j | 0 <= j < k ensures placed[j] != card {
      assert data[..k][j] == data[j];
      if data[k] in index && data[k] !in data[..k] {
        KeepMember(was, IsCard(), card);
      }
    }
  }

  /** As long as nothing has moved, the next card is in place exactly when it is next in the old order. */
  lemma AsPrefix(was: seq<Node>, at: nat, placed: seq<Node>, card: Node)
    requires PlacingCards(was, was, at, placed)
    ensures at <= |was|
    ensures placed + [card] <= Cards(was) <==> [card] <= Cards(was[at..])
  {
    var pending := Cards(was[at..]);
    KeepConcat(was[..at], was[at..], IsCard());
    assert was == was[..at] + was[at..];
    if placed + [card] <= placed + pending {
      assert (placed + pending)[|placed|] == card;
    }
  }

  lemma PlaceOrStay(was: seq<Node>, s: seq<Node>, at: nat, to: nat, placed: seq<Node>, x: Node)
    requires PlacingCards(was, s, at, placed)
    requires at <= to <= |s| && (forall j :: at <= j < to ==> !s[j].kind.Card?) && (to < |s| ==> s[to].kind.Card?)
    requires x.kind.Card? && x !in placed
    ensures PlacingCards(was, if to < |s| && s[to] == x then s else Inserted(s, x, to), to + 1, placed + [x])
    ensures [x] <= Cards(s[at..]) <==> to < |s| && s[to] == x
  {
    hide Keep, Distinct;
    PlaceCard(was, s, at, to, placed, x);
    SkipNonCards(s, at, to);
    FirstCard(s[to..]);
    if to < |s| && s[to] == x {
      InsertedWhereItIs(s, to);
    }
  }

  /** An old node is placed or still in the table exactly when the table knew it; the two exclude each other. */
  lemma TableValues(was: seq<Node>, placed: seq<Node>, data: seq<string>, existing: map<string, Node>)
    requires Placed(placed, data, Index(Cards(was)), was) && Remaining(existing, Index(Cards(was)), data)
    ensures forall c :: c in was ==> ((c in placed || c in existing.Values) <==> c in Index(Cards(was)).Values)
    ensures forall k :: 0 <= k < |placed| ==> placed[k] !in existing.Values
  {
    var index := Index(Cards(was));
    IndexSound(Cards(was));
    forall c | c in was ensures (c in placed || c in existing.Values) <==> c in index.Values {
      if c in index.Values && c !in existing.Values {
        var id :| id in index && index[id] == c;
        assert id in data;
        var k := FirstUse(data, id);
        assert placed[k] == c;
      }
      if c in placed {
        var k :| 0 <= k < |placed| && placed[k] == c;
        assert data[k] in index;
      }
    }
  }

  lemma FirstUse(data: seq<string>, id: string) returns (k: nat)
    requires id in data
    ensures k < |data| && data[k] == id && id !in data[..k]
  {
    k := 0;
    while data[k] != id
      invariant k < |data| && id !in data[..k] && id in data
      decreases |data| - k
    {
      assert data[..k + 1] == data[..k] + [data[k]];
      assert data == data[..k + 1] + data[k + 1..];
      k := k + 1;
    }
  }

  /** The cards that are left after the removals. */
  lemma SweptCards(was: seq<Node>, s: seq<Node>, at: nat, placed: seq<Node>, gone: set<Node>)
    requires PlacingCards(was, s, at, placed)
    requires forall c :: c in was ==> ((c in placed || c in gone) <==> c in Index(Cards(was)).Values)
    requires forall k :: 0 <= k < |placed| ==> placed[k] !in gone
    ensures Cards(Keep(s, NotIn(gone))) == placed + Unindexed(was)
  {
    hide Keep, Index, Distinct;
    forall c | c in Cards(was) ensures c in was { KeepMember(was, IsCard(), c); }
    KeepCommutes(s, NotIn(gone), IsCard());
    KeepConcat(s[..at], s[at..], IsCard());
    assert s == s[..at] + s[at..];
    KeepConcat(placed, Cards(s[at..]), NotIn(gone));
    KeepAll(placed, NotIn(gone));
    LeftOver(Cards(was), Cards(was), placed, gone);
  }

  /** What is left after the removals. */
  lemma Swept(was: seq<Node>, s: seq<Node>, at: nat, placed: seq<Node>, data: seq<string>, existing: map<string, Node>)
    requires PlacingCards(was, s, at, placed) && Placed(placed, data, Index(Cards(was)), was)
    requires Remaining(existing, Index(Cards(was)), data)
    ensures Distinct(Keep(s, NotIn(existing.Values)))
    ensures Cards(Keep(s, NotIn(existing.Values))) == placed + Unindexed(was)
    ensures Others(Keep(s, NotIn(existing.Values))) == Others(was)
  {
    TableOfCards(was);
    TableValues(was, placed, data, existing);
    SweptCards(was, s, at, placed, existing.Values);
    KeepDistinct(s, NotIn(existing.Values));
    OthersIgnoreRemoval(s, existing.Values);
  }

  /** Node k of the result is the known card of its id, if this is the id's first use and the
      table knows it, and otherwise a newly built one. */
  ghost predicate Placed(placed: seq<Node>, data: seq<string>, index: map<string, Node>, was: seq<Node>) {
    && |placed| == |data| && Distinct(placed)
    && forall k :: 0 <= k < |data| ==>
         && placed[k].kind.Card? && placed[k].id == data[k]
         && (if data[k] in index && data[k] !in data[..k] then placed[k] == index[data[k]] else placed[k] !in was)
  }

  /** What is left in the table once the first k ids have been dealt with. */
  ghost predicate Remaining(existing: map<string, Node>, index: map<string, Node>, used: seq<string>) {
    && (forall id :: id in existing <==> id in index && id !in used)
    && (forall id :: id in existing ==> existing[id] == index[id])
  }

  // ---- The same for rows: no sibling is skipped ----

  /** The placed rows come first, then every old node not yet placed. */
  ghost predicate PlacingRows(was: seq<Node>, s: seq<Node>, placed: seq<Node>) {
    && Distinct(s) && |placed| <= |s|
    && s[..|placed|] == placed
    && s[|placed|..] == Keep(was, NotIn(Members(placed)))
  }

  lemma StartPlacingRows(was: seq<Node>, table: map<string, Node>, insertions: nat)
    requires Distinct(was)
    ensures PlacingRows(was, was, []) && Placed([], [], table, was)
    ensures UntouchedRows(was, was, [], insertions, insertions)
  {
    KeepAll(was, NotIn(Members([])));
    assert was[0..] == was;
  }

  lemma PlaceRow(was: seq<Node>, s: seq<Node>, placed: seq<Node>, x: Node)
    requires PlacingRows(was, s, placed) && x !in placed
    ensures PlacingRows(was, Inserted(s, x, |placed|), placed + [x])
    ensures |placed| < |s| && s[|placed|] == x ==> Inserted(s, x, |placed|) == s
    ensures s == was ==> (placed + [x] <= was <==> |placed| < |s| && s[|placed|] == x)
  {
    hide Keep;
    var k := |placed|;
    InsertedDistinct(s, x, k);
    KeepAll(s[..k], NotIn({x}));
    LeaveOutOneMore(was, placed, x);
    if k < |s| && s[k] == x {
      InsertedWhereItIs(s, k);
      assert placed + [x] == s[..k + 1];
    }
    assert placed + [x] <= s ==> k < |s| && (placed + [x])[k] == s[k];
  }

  ghost predicate UntouchedRows(was: seq<Node>, s: seq<Node>, placed: seq<Node>, start: nat, insertions: nat) {
    && start <= insertions
    && (insertions == start ==> s == was)
    && (insertions == start <==> placed <= was)
  }

  /** The old nodes the table does not know, rows or not. */
  function Unknown(s: seq<Node>): seq<Node> {
    Keep(s, NotIn(Index(Cards(s)).Values))
  }

  lemma SweptRows(was: seq<Node>, s: seq<Node>, placed: seq<Node>, data: seq<string>, existing: map<string, Node>)
    requires PlacingRows(was, s, placed) && Placed(placed, data, Index(Cards(was)), was)
    requires Remaining(existing, Index(Cards(was)), data)
    ensures Keep(s, NotIn(existing.Values)) == placed + Unknown(was)
    ensures Distinct(Keep(s, NotIn(existing.Values)))
  {
    hide Keep, Index;
    TableValues(was, placed, data, existing);
    KeepDistinct(s, NotIn(existing.Values));
    assert s == placed + s[|placed|..];
    KeepConcat(placed, s[|placed|..], NotIn(existing.Values));
    KeepAll(placed, NotIn(existing.Values));
    LeftOver(Cards(was), was, placed, existing.Values);
  }

  // ---- Running it again ----

  lemma {:induction false} IndexIsLast(cards: seq<Node>, i: nat)
    requires Distinct(cards) && i < |cards| && cards[i].id != ""
    ensures cards[i].id in Index(cards)
    ensures Index(cards)[cards[i].id] == cards[i] <==> forall j :: i < j < |cards| ==> cards[j].id != cards[i].id
  {
    var n := |cards| - 1;
    if i < n {
      IndexIsLast(cards[..n], i);
      assert forall j :: i < j < n ==> cards[..n][j] == cards[j];
    }
  }

  /** After one run, a second run with the same list picks the same nodes, and so moves nothing,
      exactly when the list's ids are non-empty and pairwise distinct and no left-over card,
      unknown to the first run's table, carries one of them. */
  lemma SecondRunIsIdle(was: seq<Node>, s: seq<Node>, data: seq<string>, placed: seq<Node>, again: seq<Node>)
    requires Distinct(was) && Distinct(s)
    requires Placed(placed, data, Index(Cards(was)), was) && Cards(s) == placed + Unindexed(was)
    requires Placed(again, data, Index(Cards(s)), s)
    ensures again <= Cards(s) <==> again == placed
    ensures again == placed <==>
            "" !in data && (forall i, j :: 0 <= i < j < |data| ==> data[i] != data[j])
            && (forall c :: c in Unindexed(was) ==> c.id !in data)
  {
    hide Keep, Index;
    var cards, index := Cards(s), Index(Cards(s));
    KeepDistinct(s, IsCard());
    IndexSound(cards);
    if again <= cards {
      assert cards[..|placed|] == placed;
    }
    forall k | 0 <= k < |data| ensures placed[k] in s && cards[k] == placed[k] {
      assert cards[k] in cards;
      KeepMember(s, IsCard(), cards[k]);
    }
    var left := Unindexed(was);
    assert forall m :: 0 <= m < |left| ==> cards[|placed| + m] == left[m];
    if again == placed {
      forall k | 0 <= k < |data|
        ensures data[k] != "" && data[k] !in data[..k] && forall j :: k < j < |cards| ==> cards[j].id != data[k]
      {
        assert again[k] in s;
        IndexIsLast(cards, k);
      }
      forall i, j | 0 <= i < j < |data| ensures data[i] != data[j] {
        assert data[j] !in data[..j] && data[..j][i] == data[i];
      }
    }
    if "" !in data && (forall i, j :: 0 <= i < j < |data| ==> data[i] != data[j]) && forall c :: c in left ==> c.id !in data {
      forall k | 0 <= k < |data| ensures again[k] == placed[k] {
        assert data[k] in data;
        IndexIsLast(cards, k);
        forall j | k < j < |cards| ensures cards[j].id != data[k] {
          assert j < |placed| ==> cards[j].id == data[j];
          assert j >= |placed| ==> cards[j] == left[j - |placed|];
        }
      }
    }
  }

  /** The same for rows, whose container starts with the placed ones. */
  lemma SecondRowRunIsIdle(was: seq<Node>, s: seq<Node>, data: seq<string>, placed: seq<Node>, again: seq<Node>)
    requires Distinct(was) && Distinct(s)
    requires Placed(placed, data, Index(Cards(was)), was) && s == placed + Unknown(was)
    requires Placed(again, data, Index(Cards(s)), s)
    ensures again <= s <==>
            "" !in data && (forall i, j :: 0 <= i < j < |data| ==> data[i] != data[j])
            && (forall c :: c in Unindexed(was) ==> c.id !in data)
  {
    hide Keep, Index;
    KeepConcat(placed, Unknown(was), IsCard());
    KeepAll(placed, IsCard());
    KeepCommutes(was, NotIn(Index(Cards(was)).Values), IsCard());
    SecondRunIsIdle(was, s, data, placed, again);
    assert again <= s <==> again == placed by {
      assert s[..|placed|] == placed;
    }
  }

  // ---- The container and the two renderers ----

  class Container {
    var children: seq<Node>
    var emptyState: Node?
    var emptyShown: bool
    ghost var insertions: nat // calls of insertBefore

    constructor (children: seq<Node>, emptyState: Node?)
      ensures this.children == children && this.emptyState == emptyState && insertions == 0
    {
      this.children, this.emptyState := children, emptyState;
      emptyShown, insertions := true, 0;
    }

    method InsertBefore(x: Node, at: nat)
      requires at <= |children|
      modifies this`children, this`insertions
      ensures children == Inserted(old(children), x, at) && insertions == old(insertions) + 1
    {
      children := Inserted(children, x, at);
      insertions := insertions + 1;
    }

    method Remove(x: Node)
      modifies this`children
      ensures children == Keep(old(children), NotIn({x}))
    {
      children := Keep(children, NotIn({x}));
    }

    method BuildIndex() returns (index: map<string, Node>)
      ensures index == Index(Cards(children))
    {
      hide Keep, Index, Cards;
      NoCards();
      index := map[];
      var i := 0;
      while i < |children|
        invariant i <= |children|
        invariant index == Index(Cards(children[..i]))
      {
        OneMoreChild(children[..i], children[i]);
        assert children[..i + 1] == children[..i] + [children[i]];
        if children[i].kind.Card? && children[i].id != "" {
          index := index[children[i].id := children[i]];
        }
        i := i + 1;
      }
      assert children[..i] == children;
    }

    /** Takes every card still in the table out of the container. */
    method RemoveAll(left: map<string, Node>)
      modifies this`children
      ensures children == Keep(old(children), NotIn(left.Values))
    {
      hide Keep;
      var rest := left.Keys;
      KeepAll(children, NotIn({}));
      ghost var gone: set<Node> := {};
      while rest != {}
        invariant rest <= left.Keys
        invariant gone == set id | id in left && id !in rest :: left[id]
        invariant children == Keep(old(children), NotIn(gone))
        decreases |rest|
      {
        var id :| id in rest;
        Remove(left[id]);
        KeepTwice(old(children), NotIn(gone), NotIn({left[id]}), NotIn(gone + {left[id]}));
        gone, rest := gone + {left[id]}, rest - {id};
      }
      assert gone == left.Values;
    }

    /** Walks over siblings that are no cards. */
    method NextCard(at: nat) returns (to: nat)
      requires at <= |children|
      ensures at <= to <= |children| && (to < |children| ==> children[to].kind.Card?)
      ensures forall j :: at <= j < to ==> !children[j].kind.Card?
    {
      to := at;
      while to < |children| && !children[to].kind.Card?
        invariant at <= to <= |children|
        invariant forall j :: at <= j < to ==> !children[j].kind.Card?
      {
        to := to + 1;
      }
    }

    /** One round of the card loop: find the next sibling card and put x there unless it is x. */
    method PlaceNext(x: Node, at: nat, ghost was: seq<Node>, ghost placed: seq<Node>) returns (next: nat)
      requires PlacingCards(was, children, at, placed) && x.kind.Card? && x !in placed
      modifies this`children, this`insertions
      ensures PlacingCards(was, children, next, placed + [x]) && old(at <= |children|)
      ensures if [x] <= old(Cards(children[at..])) then children == old(children) && insertions == old(insertions)
              else insertions == old(insertions) + 1
    {
      hide Keep, Distinct, Inserted;
      var to := NextCard(at);
      PlaceOrStay(was, children, at, to, placed, x);
      if to == |children| || children[to] != x {
        InsertBefore(x, to);
      }
      next := to + 1;
    }

    /** The known card of this id, taken out of the table, or else a newly built one. */
    method TakeOrBuild(existing: map<string, Node>, id: string) returns (card: Node, left: map<string, Node>)
      requires id in existing ==> existing[id].kind.Card? && existing[id].id == id
      ensures left == existing - {id} && card.kind.Card? && card.id == id
      ensures if id in existing then card == existing[id] else fresh(card)
    {
      left := existing;
      if id in existing {
        card := existing[id];
        left := left - {id};
      } else {
        card := new Node(Card, id);
      }
    }

    /** The loop over the new list. */
    method PlaceAll(data: seq<string>, table: map<string, Node>)
      returns (at: nat, left: map<string, Node>, ghost placed: seq<Node>)
      requires Distinct(children) && table == Index(Cards(children))
      modifies this`children, this`insertions
      ensures PlacingCards(old(children), children, at, placed)
      ensures Placed(placed, data, table, old(children)) && Remaining(left, table, data)
      ensures Untouched(old(children), children, placed, old(insertions), insertions)
    {
      hide PlacingCards, Placed, Untouched;
      ghost var was := children;
      TableOfCards(was);
      StartPlacing(was, table, insertions);
      at, left, placed := 0, table, [];
      var k := 0;
      assert data[..0] == [];
      while k < |data|
        invariant k <= |data|
        invariant PlacingCards(was, children, at, placed)
        invariant Placed(placed, data[..k], table, was)
        invariant Remaining(left, table, data[..k])
        invariant Untouched(was, children, placed, old(insertions), insertions)
      {
        at, left, placed := PlaceOne(data, k, table, left, at, was, placed, old(insertions));
        k := k + 1;
      }
      assert data[..k] == data;
    }

    /** One round of the loop, for data[k]. */
    method PlaceOne(data: seq<string>, k: nat, ghost table: map<string, Node>, existing: map<string, Node>, sibling: nat,
                    ghost was: seq<Node>, ghost before: seq<Node>, ghost start: nat)
      returns (at: nat, left: map<string, Node>, ghost placed: seq<Node>)
      requires k < |data| && table == Index(Cards(was))
      requires forall n :: n in was ==> allocated(n)
      requires PlacingCards(was, children, sibling, before)
      requires Placed(before, data[..k], table, was) && Remaining(existing, table, data[..k])
      requires Untouched(was, children, before, start, insertions)
      modifies this`children, this`insertions
      ensures PlacingCards(was, children, at, placed)
      ensures Placed(placed, data[..k + 1], table, was) && Remaining(left, table, data[..k + 1])
      ensures Untouched(was, children, placed, start, insertions)
    {
      hide PlacingCards, Placed, Keep, Distinct;
      TableOfCards(was);
      var card;
      card, left := TakeOrBuild(existing, data[k]);
      PlacedOneMore(before, data, k, table, was, card);
      if insertions == start {
        AsPrefix(was, sibling, before, card);
      }
      at := PlaceNext(card, sibling, was, before);
      placed := before + [card];
      assert data[..k + 1] == data[..k] + [data[k]];
    }

    method RenderTunnels(data: seq<string>) returns (ghost placed: seq<Node>)
      requires Distinct(children)
      modifies this
      ensures Distinct(children)
      ensures data == [] ==> emptyShown && Cards(children) == [] && emptyState != null
      ensures data == [] ==> Others(children) == Others(old(children)) + if old(emptyState) == null then [emptyState] else []
      ensures data != [] ==> Placed(placed, data, Index(Cards(old(children))), old(children))
      ensures data != [] ==> Cards(children) == placed + Unindexed(old(children))
      ensures data != [] ==> Others(children) == Others(old(children)) && emptyState == old(emptyState)
      ensures data != [] && emptyState != null ==> !emptyShown
      ensures data != [] ==> (insertions == old(insertions) <==> placed <= Cards(old(children)))
    {
      ghost var was := children;
      placed := [];
      if data == [] {
        ClearCards();
        return;
      }
      if emptyState != null {
        emptyShown := false;
      }
      var existing := BuildIndex();
      var at;
      at, existing, placed := PlaceAll(data, existing);
      Swept(was, children, at, placed, data, existing);
      RemoveAll(existing);
    }

    method ClearCards()
      requires Distinct(children)
      modifies this
      ensures Distinct(children) && emptyShown && emptyState != null && insertions == old(insertions)
      ensures Cards(children) == []
      ensures Others(children) == Others(old(children)) + if old(emptyState) == null then [emptyState] else []
    {
      OnlyOthers(children);
      children := Others(children);
      if emptyState == null {
        var es := new Node(Placeholder, "");
        AppendPlaceholder(children, es);
        children := children + [es];
        emptyState := es;
      }
      emptyShown := true;
    }

    /** The row loop; the next sibling is the very next node. */
    method PlaceRows(data: seq<string>, table: map<string, Node>)
      returns (left: map<string, Node>, ghost placed: seq<Node>)
      requires Distinct(children) && table == Index(Cards(children))
      modifies this`children, this`insertions
      ensures PlacingRows(old(children), children, placed)
      ensures Placed(placed, data, table, old(children)) && Remaining(left, table, data)
      ensures UntouchedRows(old(children), children, placed, old(insertions), insertions)
    {
      hide PlacingRows, Placed, UntouchedRows, Keep, Distinct;
      ghost var was := children;
      StartPlacingRows(was, table, insertions);
      left, placed := table, [];
      var k := 0;
      assert data[..0] == [];
      while k < |data|
        invariant k <= |data|
        invariant PlacingRows(was, children, placed) && |placed| == k
        invariant Placed(placed, data[..k], table, was)
        invariant Remaining(left, table, data[..k])
        invariant UntouchedRows(was, children, placed, old(insertions), insertions)
      {
        left, placed := PlaceOneRow(data, k, table, left, was, placed, old(insertions));
        k := k + 1;
      }
      assert data[..k] == data;
    }

    method PutRow(x: Node, k: nat, ghost was: seq<Node>, ghost placed: seq<Node>)
      requires PlacingRows(was, children, placed) && x !in placed && k == |placed|
      modifies this`children, this`insertions
      ensures PlacingRows(was, children, placed + [x])
      ensures insertions >= old(insertions) && (insertions == old(insertions) ==> children == old(children))
      ensures old(children) == was ==> (insertions == old(insertions) <==> placed + [x] <= was)
    {
      hide Keep, Distinct, Inserted;
      PlaceRow(was, children, placed, x);
      if k == |children| || children[k] != x {
        InsertBefore(x, k);
      }
    }

    /** One round of the row loop, for data[k]. */
    method PlaceOneRow(data: seq<string>, k: nat, ghost table: map<string, Node>, existing: map<string, Node>,
                       ghost was: seq<Node>, ghost before: seq<Node>, ghost start: nat)
      returns (left: map<string, Node>, ghost placed: seq<Node>)
      requires k < |data| && table == Index(Cards(was)) && |before| == k
      requires forall n :: n in was ==> allocated(n)
      requires PlacingRows(was, children, before)
      requires Placed(before, data[..k], table, was) && Remaining(existing, table, data[..k])
      requires UntouchedRows(was, children, before, start, insertions)
      modifies this`children, this`insertions
      ensures PlacingRows(was, children, placed) && |placed| == k + 1
      ensures Placed(placed, data[..k + 1], table, was) && Remaining(left, table, data[..k + 1])
      ensures UntouchedRows(was, children, placed, start, insertions)
    {
      hide PlacingRows, Placed, Keep, Distinct;
      TableOfCards(was);
      var row;
      row, left := TakeOrBuild(existing, data[k]);
      PlacedOneMore(before, data, k, table, was, row);
      PutRow(row, k, was, before);
      placed := before + [row];
      assert data[..k + 1] == data[..k] + [data[k]];
    }

    /** Whether the table body shows the "No clients connected" row. */
    method FindPlaceholder() returns (found: bool)
      ensures found <==> exists i :: 0 <= i < |children| && children[i].kind.Placeholder?
    {
      var i := 0;
      while i < |children|
        invariant i <= |children|
        invariant forall j :: 0 <= j < i ==> !children[j].kind.Placeholder?
      {
        if children[i].kind.Placeholder? {
          return true;
        }
        i := i + 1;
      }
      return false;
    }

    method RefreshRows(data: seq<string>) returns (ghost placed: seq<Node>, ghost base: seq<Node>)
      requires Distinct(children)
      modifies this`children, this`insertions
      ensures Distinct(children)
      ensures data == [] ==> |children| == 1 && children[0].kind.Placeholder? && fresh(children[0])
      ensures base == if exists i :: 0 <= i < |old(children)| && old(children)[i].kind.Placeholder? then [] else old(children)
      ensures data != [] ==> Placed(placed, data, Index(Cards(base)), base)
      ensures data != [] ==> children == placed + Unknown(base)
      ensures data != [] ==> (insertions == old(insertions) <==> placed <= base)
    {
      var found := FindPlaceholder();
      base := if found then [] else children;
      placed := [];
      if data == [] {
        var empty := new Node(Placeholder, "");
        children := [empty];
        return;
      }
      if found {
        children := [];
      }
      var existing := BuildIndex();
      existing, placed := PlaceRows(data, existing);
      SweptRows(base, children, placed, data, existing);
      RemoveAll(existing);
    }
  }
}
