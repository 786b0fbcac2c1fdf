/** The DEX order book: a local copy of a sequence-numbered server log, with per-rate buckets
    (exchanges/exchanges.go). Quantities and prices are integer atoms. */
module DexBook {
  import opened Types
  import opened Sums
  import opened Keys

  type OrderID = string

  /** An order of the book; `quantity` is what remains of it. */
  datatype Order = Order(buy: bool, rate: nat, quantity: nat)

  datatype Bucket = Bucket(price: nat, volume: int)

  type Side = map<int, Bucket>

  type Book = map<OrderID, Order>

  datatype Note =
    | BookOrder(sequence: nat, id: OrderID, order: Order)
    | UnbookOrder(sequence: nat, id: OrderID)
    | UpdateRemaining(sequence: nat, id: OrderID, remaining: nat)
    | EpochOrder(sequence: nat)

  const TWO_63: nat := 0x8000_0000_0000_0000
  const TWO_64: nat := 0x1_0000_0000_0000_0000

  /** int64(rate). */
  function RateKey(rate: nat): int {
    if rate < TWO_63 then rate else rate - TWO_64
  }

  /** What an order adds to the bucket of a side at a key. */
  function Weight(buy: bool, key: int): (OrderID, Order) -> int {
    (id: OrderID, o: Order) => if o.buy == buy && RateKey(o.rate) == key then o.quantity as int else 0
  }

  /** The total remaining quantity of one side at one key. */
  ghost function Total(ords: Book, buy: bool, key: int): int {
    Sum(ords, Weight(buy, key))
  }

  lemma TotalNonNegative(ords: Book, buy: bool, key: int)
    ensures Total(ords, buy, key) >= 0
    ensures forall id :: id in ords && ords[id].buy == buy && RateKey(ords[id].rate) == key ==>
              ords[id].quantity <= Total(ords, buy, key)
  {
    SumBounds(ords, Weight(buy, key));
    forall id | id in ords && ords[id].buy == buy && RateKey(ords[id].rate) == key
      ensures ords[id].quantity <= Total(ords, buy, key)
    {
      assert Weight(buy, key)(id, ords[id]) == ords[id].quantity;
    }
  }

  /** At `key` the side has a bucket exactly when its orders' total is positive, and then the
      bucket's volume is that total. */
  ghost predicate BucketAt(side: Side, ords: Book, buy: bool, key: int) {
    && (key in side <==> Total(ords, buy, key) > 0)
    && (key in side ==> side[key].volume == Total(ords, buy, key) && RateKey(side[key].price) == key)
  }

  ghost predicate SideOk(side: Side, ords: Book, buy: bool) {
    forall key {:trigger BucketAt(side, ords, buy, key)} :: BucketAt(side, ords, buy, key)
  }

  /** wsOrders.order: the volume of the bucket at `key`, an empty one if there is none. */
  function VolumeAt(side: Side, key: int): int {
    if key in side then side[key].volume else 0
  }

  function PriceAt(side: Side, rate: nat): nat {
    if RateKey(rate) in side then side[RateKey(rate)].price else rate
  }

  /** The side after an order is booked. */
  function Booked(side: Side, o: Order): Side {
    side[RateKey(o.rate) := Bucket(PriceAt(side, o.rate), VolumeAt(side, RateKey(o.rate)) + o.quantity)]
  }

  /** The side after `amount` atoms leave the bucket at `rate`; a bucket below one atom is dropped. */
  function Reduced(side: Side, rate: nat, amount: int): Side {
    var key, v := RateKey(rate), VolumeAt(side, RateKey(rate)) - amount;
    if v < 1 then side - {key} else side[key := Bucket(PriceAt(side, rate), v)]
  }

  /** Booking a new order keeps the buckets right exactly when it has something to sell or
      buy, or its bucket was already there: a zero-quantity order opens an empty bucket. */
  lemma BookedOkIff(side: Side, ords: Book, buy: bool, id: OrderID, o: Order)
    requires SideOk(side, ords, buy) && id !in ords && o.buy == buy
    ensures SideOk(Booked(side, o), ords[id := o], buy) <==> o.quantity > 0 || RateKey(o.rate) in side
  {
    var k0, side', ords' := RateKey(o.rate), Booked(side, o), ords[id := o];
    forall key ensures Total(ords', buy, key) == Total(ords, buy, key) + (if key == k0 then o.quantity else 0) {
      SumInsert(ords, Weight(buy, key), id, o);
    }
    TotalNonNegative(ords, buy, k0);
    assert BucketAt(side, ords, buy, k0);
    if o.quantity > 0 || k0 in side {
      forall key ensures BucketAt(side', ords', buy, key) {
        assert BucketAt(side, ords, buy, key);
      }
    } else {
      assert !BucketAt(side', ords', buy, k0);
    }
  }

  lemma OtherSideBooked(side: Side, ords: Book, buy: bool, id: OrderID, o: Order)
    requires SideOk(side, ords, buy) && id !in ords && o.buy != buy
    ensures SideOk(side, ords[id := o], buy)
  {
    var ords' := ords[id := o];
    forall key ensures BucketAt(side, ords', buy, key) {
      SumInsert(ords, Weight(buy, key), id, o);
      assert BucketAt(side, ords, buy, key);
    }
  }

  /** An order leaves the book: its bucket loses what remained of it. */
  lemma UnbookedOk(side: Side, ords: Book, buy: bool, id: OrderID)
    requires SideOk(side, ords, buy) && id in ords
    ensures ords[id].buy == buy ==> SideOk(Reduced(side, ords[id].rate, ords[id].quantity), ords - {id}, buy)
    ensures ords[id].buy != buy ==> SideOk(side, ords - {id}, buy)
  {
    var o := ords[id];
    var side' := if o.buy == buy then Reduced(side, o.rate, o.quantity) else side;
    var ords' := ords - {id};
    forall key ensures BucketAt(side', ords', buy, key) {
      SumRemove(ords, Weight(buy, key), id);
      assert BucketAt(side, ords, buy, key);
      TotalNonNegative(ords, buy, key);
      TotalNonNegative(ords', buy, key);
    }
  }

  /** An order is partly filled: its bucket loses the difference. */
  lemma UpdatedOk(side: Side, ords: Book, buy: bool, id: OrderID, remaining: nat)
    requires SideOk(side, ords, buy) && id in ords && remaining <= ords[id].quantity
    ensures var ords' := ords[id := ords[id].(quantity := remaining)];
            && (ords[id].buy == buy ==> SideOk(Reduced(side, ords[id].rate, ords[id].quantity - remaining), ords', buy))
            && (ords[id].buy != buy ==> SideOk(side, ords', buy))
  {
    var o := ords[id];
    var ords' := ords[id := o.(quantity := remaining)];
    var side' := if o.buy == buy then Reduced(side, o.rate, o.quantity - remaining) else side;
    forall key ensures BucketAt(side', ords', buy, key) {
      SumUpdate(ords, Weight(buy, key), id, o.(quantity := remaining));
      assert BucketAt(side, ords, buy, key);
      TotalNonNegative(ords, buy, key);
      TotalNonNegative(ords', buy, key);
    }
  }

  lemma OtherSideUpdated(side: Side, ords: Book, buy: bool, id: OrderID, remaining: nat)
    requires SideOk(side, ords, buy) && id in ords && ords[id].buy != buy
    ensures SideOk(side, ords[id := ords[id].(quantity := remaining)], buy)
  {
    var ords' := ords[id := ords[id].(quantity := remaining)];
    forall key ensures BucketAt(side, ords', buy, key) {
      SumUpdate(ords, Weight(buy, key), id, ords[id].(quantity := remaining));
      assert BucketAt(side, ords, buy, key);
    }
  }

  /** An update keeps the buckets right exactly when the order does not grow: the unsigned
      difference wraps, and the whole bucket is lost. */
  lemma UpdatedOkIff(side: Side, ords: Book, buy: bool, id: OrderID, remaining: nat)
    requires SideOk(side, ords, buy) && id in ords && ords[id].buy == buy && ords[id].quantity < TWO_64 && remaining < TWO_64
    ensures var ords' := ords[id := ords[id].(quantity := remaining)];
            remaining <= ords[id].quantity <==>
              SideOk(Reduced(side, ords[id].rate, (ords[id].quantity - remaining) % TWO_64), ords', buy)
  {
    var o := ords[id];
    var ords', diff := ords[id := o.(quantity := remaining)], (o.quantity - remaining) % TWO_64;
    if remaining <= o.quantity {
      UpdatedOk(side, ords, buy, id, remaining);
    } else {
      var key := RateKey(o.rate);
      assert diff == o.quantity - remaining + TWO_64;
      SumUpdate(ords, Weight(buy, key), id, o.(quantity := remaining));
      assert BucketAt(side, ords, buy, key);
      TotalNonNegative(ords, buy, key);
      assert !BucketAt(Reduced(side, o.rate, diff), ords', buy, key);
    }
  }

  /** An order of quantity zero opens a bucket, and one that grows by an atom loses its own. */
  lemma BucketsGoWrong()
    ensures 5 in Booked(map[], Order(true, 5, 0)) && Booked(map[], Order(true, 5, 0))[5].volume == 0
    ensures 5 !in Reduced(map[5 := Bucket(5, 1)], 5, (1 - 2) % TWO_64)
  {
  }

  // ---- The server ----

  /** The server's book after one note. */
  function ServerStep(book: Book, note: Note): Book {
    match note
    case BookOrder(_, id, o) => book[id := o]
    case UnbookOrder(_, id) => book - {id}
    case UpdateRemaining(_, id, r) => if id in book then book[id := book[id].(quantity := r)] else book
    case EpochOrder(_) => book
  }

  /** The server's book after the first `n` notes of its log. */
  function ServerBook(start: Book, log: seq<Note>, n: nat): Book
    requires n <= |log|
  {
    if n == 0 then start else ServerStep(ServerBook(start, log, n - 1), log[n - 1])
  }

  /** A note the server may send: new orders are new and not empty, others exist and do not grow. */
  predicate NoteOk(book: Book, note: Note) {
    match note
    case BookOrder(_, id, o) => id !in book && o.quantity > 0
    case UnbookOrder(_, id) => id != "" && id in book
    case UpdateRemaining(_, id, r) => id != "" && id in book && r <= book[id].quantity && book[id].quantity < TWO_64
    case EpochOrder(_) => true
  }

  /** Note `i` of the log has the right number and fits the book before it. */
  predicate NoteAt(start: Book, base: nat, log: seq<Note>, i: nat)
    requires i < |log|
  {
    log[i].sequence == base + i + 1 && NoteOk(ServerBook(start, log, i), log[i])
  }

  /** A valid server log after a snapshot with sequence number `base`. */
  ghost predicate LogOk(start: Book, base: nat, log: seq<Note>) {
    && base + |log| < TWO_64
    && forall i {:trigger NoteAt(start, base, log, i)} :: 0 <= i < |log| ==> NoteAt(start, base, log, i)
  }

  /** Every order but that of `id` is as before. */
  predicate OthersKept(before: Book, after: Book, id: OrderID) {
    && (forall x :: x in before && x != id ==> x in after && after[x] == before[x])
    && (forall x :: x in after && x != id ==> x in before)
  }

  /** What a note means for the orders: a booked order is there, an unbooked one is gone, an
      updated one has what remains of it, at the same rate on the same side; a note without an
      id, or about an unknown order, and an epoch change nothing. */
  ghost predicate NoteMeans(note: Note, before: Book, after: Book) {
    match note
    case BookOrder(_, id, o) => OthersKept(before, after, id) && id in after && after[id] == o
    case UnbookOrder(_, id) =>
      if id == "" then after == before else OthersKept(before, after, id) && id !in after
    case UpdateRemaining(_, id, r) =>
      if id == "" || id !in before then after == before
      else
        && OthersKept(before, after, id) && id in after
        && after[id].quantity == r && after[id].rate == before[id].rate && after[id].buy == before[id].buy
        && (forall buy, key :: Total(after, buy, key) == Total(before, buy, key)
              + if before[id].buy == buy && RateKey(before[id].rate) == key then r - before[id].quantity else 0)
    case EpochOrder(_) => after == before
  }

  /** An update moves the total of its own rate by exactly the difference. */
  lemma UpdateMovesTotal(ords: Book, id: OrderID, remaining: nat)
    requires id in ords
    ensures forall buy, key :: Total(ords[id := ords[id].(quantity := remaining)], buy, key) == Total(ords, buy, key)
              + if ords[id].buy == buy && RateKey(ords[id].rate) == key then remaining - ords[id].quantity else 0
  {
    forall buy, key
      ensures Total(ords[id := ords[id].(quantity := remaining)], buy, key) == Total(ords, buy, key)
                + if ords[id].buy == buy && RateKey(ords[id].rate) == key then remaining - ords[id].quantity else 0
    {
      SumUpdate(ords, Weight(buy, key), id, ords[id].(quantity := remaining));
    }
  }

  class DecredDEX {
    var seqNum: nat
    var ords: Book
    var buys: Side
    var asks: Side
    var failed: bool

    /** Both sides are the per-rate totals of the orders. */
    ghost predicate BookOk()
      reads this
    {
      SideOk(buys, ords, true) && SideOk(asks, ords, false)
    }

    constructor ()
      ensures BookOk() && ords == map[] && seqNum == 0 && !failed
    {
      seqNum, ords, buys, asks, failed := 0, map[], map[], map[], false;
      new;
      EmptyOk();
    }

    method CheckSeq(s: nat) returns (ok: bool)
      modifies this`seqNum, this`failed
      ensures ok <==> s == old(seqNum) + 1
      ensures seqNum == (if ok then s else old(seqNum)) && failed == (old(failed) || !ok)
    {
      if s != seqNum + 1 {
        failed := true;
        return false;
      }
      seqNum := s;
      ok := true;
    }

    method AddToSide(id: OrderID, o: Order)
      modifies this`ords, this`buys, this`asks
      ensures ords == old(ords)[id := o]
      ensures buys == (if o.buy then Booked(old(buys), o) else old(buys))
      ensures asks == (if o.buy then old(asks) else Booked(old(asks), o))
    {
      if o.buy {
        buys := Booked(buys, o);
      } else {
        asks := Booked(asks, o);
      }
      ords := ords[id := o];
    }

    method Take(o: Order, amount: int)
      modifies this`buys, this`asks
      ensures buys == (if o.buy then Reduced(old(buys), o.rate, amount) else old(buys))
      ensures asks == (if o.buy then old(asks) else Reduced(old(asks), o.rate, amount))
    {
      if o.buy {
        buys := Reduced(buys, o.rate, amount);
      } else {
        asks := Reduced(asks, o.rate, amount);
      }
    }

    /** unbookOrder. */
    method Unbook(id: OrderID)
      modifies this`ords, this`buys, this`asks, this`failed
      ensures ords == if id == "" then old(ords) else old(ords) - {id}
      ensures failed == (old(failed) || id == "" || id !in old(ords))
      ensures old(BookOk()) ==> BookOk()
    {
      if id == "" || id !in ords {
        failed := true;
        assert id !in ords ==> ords == ords - {id};
        return;
      }
      var o := ords[id];
      if BookOk() {
        UnbookedOk(buys, ords, true, id);
        UnbookedOk(asks, ords, false, id);
      }
      ords := ords - {id};
      Take(o, o.quantity);
    }

    /** updateRemaining; the difference is an unsigned 64-bit subtraction. */
    method Update(id: OrderID, remaining: nat)
      modifies this`ords, this`buys, this`asks, this`failed
      ensures ords == if id != "" && id in old(ords) then old(ords)[id := old(ords)[id].(quantity := remaining)] else old(ords)
      ensures failed == (old(failed) || id == "" || id !in old(ords))
      ensures old(BookOk()) && (id == "" || id !in old(ords)) ==> BookOk()
      ensures old(BookOk()) && id != "" && id in old(ords) && old(ords)[id].quantity < TWO_64 && remaining < TWO_64 ==>
                (BookOk() <==> remaining <= old(ords)[id].quantity)
    {
      if id == "" || id !in ords {
        failed := true;
        return;
      }
      var o := ords[id];
      var diff := (o.quantity - remaining) % TWO_64;
      if BookOk() && o.quantity < TWO_64 && remaining < TWO_64 {
        UpdatedOkIff(if o.buy then buys else asks, ords, o.buy, id, remaining);
        OtherSideUpdated(if o.buy then asks else buys, ords, !o.buy, id, remaining);
      }
      ords := ords[id := o.(quantity := remaining)];
      Take(o, diff);
    }

    /** The notification branch of processWsMessage: out of sequence notes change nothing but
        the failure mark. */
    method HandleNote(note: Note)
      modifies this
      ensures note.sequence != old(seqNum) + 1 ==>
                ords == old(ords) && buys == old(buys) && asks == old(asks) && seqNum == old(seqNum) && failed
      ensures note.sequence == old(seqNum) + 1 ==> seqNum == note.sequence
      ensures note.sequence == old(seqNum) + 1 && NoteOk(old(ords), note) ==>
                ords == ServerStep(old(ords), note) && failed == old(failed) && (old(BookOk()) ==> BookOk())
      ensures note.sequence == old(seqNum) + 1 ==> NoteMeans(note, old(ords), ords)
      ensures note.sequence == old(seqNum) + 1 && (note.UnbookOrder? || note.UpdateRemaining?) ==>
                failed == (old(failed) || note.id == "" || note.id !in old(ords))
      ensures note.sequence == old(seqNum) + 1 && note.EpochOrder? ==> buys == old(buys) && asks == old(asks) && failed == old(failed)
    {
      var ok := CheckSeq(note.sequence);
      if !ok {
        return;
      }
      match note {
        case BookOrder(_, id, o) =>
          if BookOk() && NoteOk(ords, note) {
            BookKept(buys, asks, ords, id, o);
          }
          AddToSide(id, o);
        case UnbookOrder(_, id) =>
          Unbook(id);
        case UpdateRemaining(_, id, r) =>
          if id in ords { UpdateMovesTotal(ords, id, r); }
          Update(id, r);
        case EpochOrder(_) =>
      }
    }

    /** setOrderBook: a snapshot of distinct, non-empty orders replaces book and sequence. A
        missing order stops it half-way. */
    method SetOrderBook(base: nat, orders: seq<Option<(OrderID, Order)>>)
      modifies this
      ensures seqNum == base
      ensures SnapshotOk(orders) ==> BookOk() && ords == BookOf(orders) && failed == old(failed)
      ensures (exists i :: 0 <= i < |orders| && orders[i].None?) ==> failed
    {
      buys, asks, ords, seqNum := map[], map[], map[], base;
      EmptyOk();
      for i := 0 to |orders|
        invariant seqNum == base && failed == old(failed)
        invariant forall j :: 0 <= j < i ==> orders[j].Some?
        invariant SnapshotOk(orders) ==> BookOk() && ords == BookOf(orders[..i])
      {
        if orders[i].None? {
          failed := true;
          return;
        }
        var (id, o) := orders[i].value;
        if SnapshotOk(orders) {
          SnapshotStep(orders, i);
          BookKept(buys, asks, ords, id, o);
        }
        AddToSide(id, o);
      }
      assert orders[..|orders|] == orders;
    }
  }

  lemma EmptyOk()
    ensures forall buy :: SideOk(map[], map[], buy)
  {
    forall buy: bool, key: int ensures BucketAt(map[], map[], buy, key) {
      assert Total(map[], buy, key) == 0;
    }
  }

  lemma BookKept(buys: Side, asks: Side, ords: Book, id: OrderID, o: Order)
    requires SideOk(buys, ords, true) && SideOk(asks, ords, false) && id !in ords && o.quantity > 0
    ensures o.buy ==> SideOk(Booked(buys, o), ords[id := o], true) && SideOk(asks, ords[id := o], false)
    ensures !o.buy ==> SideOk(buys, ords[id := o], true) && SideOk(Booked(asks, o), ords[id := o], false)
  {
    if o.buy {
      BookedOkIff(buys, ords, true, id, o);
      OtherSideBooked(asks, ords, false, id, o);
    } else {
      BookedOkIff(asks, ords, false, id, o);
      OtherSideBooked(buys, ords, true, id, o);
    }
  }

  predicate SnapshotOk(orders: seq<Option<(OrderID, Order)>>) {
    && (forall i :: 0 <= i < |orders| ==> orders[i].Some? && orders[i].value.1.quantity > 0)
    && (forall i, j :: 0 <= i < j < |orders| ==> orders[i].value.0 != orders[j].value.0)
  }

  function BookOf(orders: seq<Option<(OrderID, Order)>>): Book {
    if orders == [] then map[] else
      var last := orders[|orders| - 1];
      if last.None? then BookOf(orders[..|orders| - 1])
      else BookOf(orders[..|orders| - 1])[last.value.0 := last.value.1]
  }

  lemma BookOfKeys(orders: seq<Option<(OrderID, Order)>>, id: OrderID)
    requires id in BookOf(orders)
    ensures exists i :: 0 <= i < |orders| && orders[i].Some? && orders[i].value.0 == id
  {
    if orders != [] {
      var n := |orders| - 1;
      if orders[n].None? || orders[n].value.0 != id {
        BookOfKeys(orders[..n], id);
        var i :| 0 <= i < n && orders[..n][i].Some? && orders[..n][i].value.0 == id;
        assert orders[i].value.0 == id;
      }
    }
  }

  /** The book of a snapshot has every order of it, and no other. */
  lemma {:induction false} BookOfHas(orders: seq<Option<(OrderID, Order)>>, i: nat)
    requires SnapshotOk(orders) && i < |orders|
    ensures orders[i].value.0 in BookOf(orders) && BookOf(orders)[orders[i].value.0] == orders[i].value.1
    ensures forall id :: id in BookOf(orders) ==> exists j :: 0 <= j < |orders| && orders[j].value.0 == id
  {
    forall id | id in BookOf(orders) ensures exists j :: 0 <= j < |orders| && orders[j].value.0 == id {
      BookOfKeys(orders, id);
    }
    var n := |orders| - 1;
    if i < n {
      BookOfHas(orders[..n], i);
      assert orders[i].value.0 != orders[n].value.0;
    }
  }

  lemma SnapshotStep(orders: seq<Option<(OrderID, Order)>>, i: nat)
    requires SnapshotOk(orders) && i < |orders|
    ensures orders[i].value.0 !in BookOf(orders[..i]) && orders[i].value.1.quantity > 0
    ensures BookOf(orders[..i + 1]) == BookOf(orders[..i])[orders[i].value.0 := orders[i].value.1]
  {
    assert orders[..i + 1][..i] == orders[..i];
    var id := orders[i].value.0;
    if id in BookOf(orders[..i]) {
      BookOfKeys(orders[..i], id);
    }
  }

  // ---- Replication ----

  /** The local book is the server's book after exactly `seqNum` notes. */
  ghost predicate Replicates(dcr: DecredDEX, start: Book, base: nat, log: seq<Note>)
    reads dcr
  {
    && base <= dcr.seqNum <= base + |log|
    && dcr.ords == ServerBook(start, log, dcr.seqNum - base)
    && dcr.BookOk()
  }

  /** One delivery: the next note is applied, any other is dropped. */
  method DeliverOne(dcr: DecredDEX, start: Book, base: nat, log: seq<Note>, n: nat)
    requires LogOk(start, base, log) && Replicates(dcr, start, base, log) && n < |log|
    modifies dcr
    ensures Replicates(dcr, start, base, log)
    ensures dcr.seqNum == if n == old(dcr.seqNum) - base then old(dcr.seqNum) + 1 else old(dcr.seqNum)
    ensures n == old(dcr.seqNum) - base ==> dcr.failed == old(dcr.failed)
  {
    assert NoteAt(start, base, log, n);
    dcr.HandleNote(log[n]);
  }

  /** Any loss, repetition or reordering of the notes of a valid server log after a snapshot:
      after every delivery the local book is the server's after exactly `seqNum` notes, and the
      buckets are its per-rate totals. */
  method Deliver(dcr: DecredDEX, start: Book, base: nat, log: seq<Note>, delivered: seq<nat>)
    requires LogOk(start, base, log) && Replicates(dcr, start, base, log)
    requires forall i :: 0 <= i < |delivered| ==> delivered[i] < |log|
    modifies dcr
    ensures Replicates(dcr, start, base, log)
    ensures dcr.seqNum == Reached(old(dcr.seqNum), base, delivered)
  {
    for i := 0 to |delivered|
      invariant Replicates(dcr, start, base, log)
      invariant dcr.seqNum == Reached(old(dcr.seqNum), base, delivered[..i])
    {
      assert delivered[..i + 1][..i] == delivered[..i];
      DeliverOne(dcr, start, base, log, delivered[i]);
    }
    assert delivered[..|delivered|] == delivered;
  }

  /** The sequence number reached: it moves on exactly at the notes that come in turn. */
  function Reached(from: nat, base: nat, delivered: seq<nat>): nat {
    if delivered == [] then from else
      var s := Reached(from, base, delivered[..|delivered| - 1]);
      if delivered[|delivered| - 1] == s - base then s + 1 else s
  }

  /** The notes 0, 1, .., n - 1. */
  function FirstNotes(n: nat): (r: seq<nat>)
    ensures |r| == n && forall i :: 0 <= i < n ==> r[i] == i
  {
    seq(n, i => i)
  }

  /** Notes that come in order are all taken. */
  lemma {:induction false} ReachedInOrder(base: nat, n: nat)
    ensures Reached(base, base, FirstNotes(n)) == base + n
  {
    if n > 0 {
      ReachedInOrder(base, n - 1);
      assert FirstNotes(n)[..n - 1] == FirstNotes(n - 1);
    }
  }

  /** Convergence: after a snapshot and all notes of a valid log in order, whatever else was
      delivered late or twice after them, the local book is the server's book of today. */
  method Converge(dcr: DecredDEX, start: Book, base: nat, log: seq<Note>, extra: seq<nat>)
    requires LogOk(start, base, log) && Replicates(dcr, start, base, log) && dcr.seqNum == base
    requires forall i :: 0 <= i < |extra| ==> extra[i] < |log|
    modifies dcr
    ensures dcr.ords == ServerBook(start, log, |log|) && dcr.BookOk() && dcr.seqNum == base + |log|
  {
    ReachedInOrder(base, |log|);
    Deliver(dcr, start, base, log, FirstNotes(|log|));
    NoMoreReached(base + |log|, base, extra);
    Deliver(dcr, start, base, log, extra);
  }

  /** Past the last note nothing is taken any more. */
  lemma {:induction false} NoMoreReached(from: nat, base: nat, extra: seq<nat>)
    requires from >= base && forall i :: 0 <= i < |extra| ==> extra[i] < from - base
    ensures Reached(from, base, extra) == from
  {
    if extra != [] {
      NoMoreReached(from, base, extra[..|extra| - 1]);
    }
  }

  /** A snapshot starts a replica, whatever the book was before. */
  method Subscribe(dcr: DecredDEX, base: nat, orders: seq<Option<(OrderID, Order)>>, ghost log: seq<Note>)
    requires SnapshotOk(orders)
    modifies dcr
    ensures Replicates(dcr, BookOf(orders), base, log) && dcr.seqNum == base
  {
    dcr.SetOrderBook(base, orders);
  }

  // ---- The depth snapshot ----

  datatype DepthPoint = DepthPoint(quantity: int, price: nat)

  /** The points of `keys`, in that order. */
  function Points(side: Side, keys: seq<int>): (r: seq<DepthPoint>)
    requires forall i :: 0 <= i < |keys| ==> keys[i] in side
    ensures |r| == |keys|
    ensures forall i :: 0 <= i < |r| ==> r[i] == DepthPoint(side[keys[i]].volume, side[keys[i]].price)
  {
    seq(|keys|, i requires 0 <= i < |keys| => DepthPoint(side[keys[i]].volume, side[keys[i]].price))
  }

  /** wsOrderBinKeys followed by the sort: every key once, strictly ascending. */
  method SortedKeys(side: Side) returns (keys: seq<int>)
    ensures Elems(keys) == side.Keys
    ensures forall i, j :: 0 <= i < j < |keys| ==> keys[i] < keys[j]
  {
    keys := [];
    var left := side.Keys;
    while left != {}
      invariant left <= side.Keys && Elems(keys) == side.Keys - left
      invariant forall i, j :: 0 <= i < j < |keys| ==> keys[i] < keys[j]
      invariant forall i, k :: 0 <= i < |keys| && k in left ==> keys[i] < k
      decreases left
    {
      var k := LeastKey(left);
      ElemsSnoc(keys, k);
      keys := keys + [k];
      left := left - {k};
    }
  }

  /** wsDepthSnapshot: asks in strictly ascending and bids in strictly descending order of
      their rates, one point for each rate with something left and nothing else. */
  method DepthSnapshot(dcr: DecredDEX) returns (asks: seq<DepthPoint>, bids: seq<DepthPoint>)
    ensures dcr.BookOk() ==> DepthOf(asks, dcr.ords, false) && DepthOf(bids, dcr.ords, true)
    ensures dcr.BookOk() ==> forall i, j :: 0 <= i < j < |asks| ==> RateKey(asks[i].price) < RateKey(asks[j].price)
    ensures dcr.BookOk() ==> forall i, j :: 0 <= i < j < |bids| ==> RateKey(bids[i].price) > RateKey(bids[j].price)
  {
    var askKeys := SortedKeys(dcr.asks);
    var up := SortedKeys(dcr.buys);
    var buyKeys := seq(|up|, i requires 0 <= i < |up| => up[|up| - 1 - i]);
    assert Elems(buyKeys) == Elems(up) by {
      forall k ensures k in buyKeys <==> k in up {
        if k in up {
          var i :| 0 <= i < |up| && up[i] == k;
          assert buyKeys[|up| - 1 - i] == k;
        }
      }
    }
    asks := ReadPoints(dcr.asks, askKeys);
    bids := ReadPoints(dcr.buys, buyKeys);
    if dcr.BookOk() {
      DepthMatches(dcr.asks, dcr.ords, false, askKeys);
      DepthMatches(dcr.buys, dcr.ords, true, buyKeys);
    }
  }

  method ReadPoints(side: Side, keys: seq<int>) returns (points: seq<DepthPoint>)
    requires Elems(keys) == side.Keys
    ensures forall i :: 0 <= i < |keys| ==> keys[i] in side
    ensures points == Points(side, keys)
  {
    assert forall i :: 0 <= i < |keys| ==> keys[i] in Elems(keys);
    points := [];
    for i := 0 to |keys|
      invariant |points| == i
      invariant forall j :: 0 <= j < i ==> points[j] == DepthPoint(side[keys[j]].volume, side[keys[j]].price)
    {
      var pt := side[keys[i]];
      points := points + [DepthPoint(pt.volume, pt.price)];
    }
  }

  /** Some point is at the rate with this key. */
  predicate HasPoint(points: seq<DepthPoint>, key: int) {
    exists i :: 0 <= i < |points| && RateKey(points[i].price) == key
  }

  /** Each point carries the total remaining quantity of the orders at its rate, and every
      rate with something left has a point. */
  ghost predicate DepthOf(points: seq<DepthPoint>, ords: Book, buy: bool) {
    && (forall i :: 0 <= i < |points| ==> points[i].quantity == Total(ords, buy, RateKey(points[i].price)) > 0)
    && (forall key {:trigger Total(ords, buy, key)} :: Total(ords, buy, key) > 0 ==> HasPoint(points, key))
  }

  /** The points of a side whose buckets are right, read in any order of its keys. */
  lemma DepthMatches(side: Side, ords: Book, buy: bool, keys: seq<int>)
    requires SideOk(side, ords, buy) && Elems(keys) == side.Keys
    requires forall i :: 0 <= i < |keys| ==> keys[i] in side
    ensures DepthOf(Points(side, keys), ords, buy)
    ensures forall i :: 0 <= i < |keys| ==> RateKey(Points(side, keys)[i].price) == keys[i]
  {
    var points := Points(side, keys);
    forall i | 0 <= i < |keys|
      ensures RateKey(points[i].price) == keys[i] && points[i].quantity == Total(ords, buy, keys[i]) > 0
    {
      assert BucketAt(side, ords, buy, keys[i]);
    }
    forall key | Total(ords, buy, key) > 0 ensures HasPoint(points, key) {
      assert BucketAt(side, ords, buy, key);
      assert key in Elems(keys);
      var i :| 0 <= i < |keys| && keys[i] == key;
      assert RateKey(points[i].price) == key;
    }
  }

  /** For rates below 2^63, key order is price order. */
  lemma KeyOrderIsPriceOrder(a: nat, b: nat)
    requires a < TWO_64 && b < TWO_64
    ensures a < TWO_63 && b < TWO_63 ==> (RateKey(a) < RateKey(b) <==> a < b)
    ensures RateKey(a) == RateKey(b) ==> a == b
  {
  }
}
