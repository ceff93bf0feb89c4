/** Food orders: pricing and placing an order with its counters, and the life of an order
    through its status changes. Money is in whole numbers of the smallest unit. */
module Orders {
  import opened Wrappers

  datatype Status = PLACED | CONFIRMED | PREPARING | READY | PICKED_UP | DELIVERED | CANCELLED

  datatype MenuItem = MenuItem(price: int, discountPrice: Optional<int>, available: bool, totalSold: int)

  datatype Restaurant = Restaurant(isOpen: bool, minOrderValue: int, deliveryFee: int, totalOrders: nat)

  datatype Line = Line(menuItemId: string, quantity: int)

  datatype OrderItem = OrderItem(menuItemId: string, price: int, quantity: int)

  datatype Order = Order(restaurantId: string, items: seq<OrderItem>,
                         subtotal: int, deliveryFee: int, discount: int, total: int,
                         status: Status, paid: bool,
                         confirmedAt: Optional<int>, preparedAt: Optional<int>, pickedUpAt: Optional<int>,
                         deliveredAt: Optional<int>, cancelledAt: Optional<int>)

  datatype CreateResult =
    | Created
    | NoItems
    | RestaurantNotFound
    | RestaurantClosed
    | ItemNotFound(index: nat)
    | ItemNotAvailable(index: nat)
    | BelowMinimum

  datatype UpdateResult = Updated | OrderNotFound | InvalidTransition

  // ---- Prices and counts

  predicate Sellable(menu: map<string, MenuItem>, line: Line) {
    line.menuItemId in menu && menu[line.menuItemId].available
  }

  function LinesTotal(items: seq<OrderItem>): int {
    if items == [] then 0
    else LinesTotal(items[..|items| - 1]) + items[|items| - 1].price * items[|items| - 1].quantity
  }

  function QuantityIn(lines: seq<Line>, id: string): int {
    if lines == [] then 0
    else
      var l := lines[|lines| - 1];
      QuantityIn(lines[..|lines| - 1], id) + if l.menuItemId == id then l.quantity else 0
  }

  function LinesOf(items: seq<OrderItem>): (lines: seq<Line>)
    ensures |lines| == |items|
    ensures forall i :: 0 <= i < |items| ==> lines[i] == Line(items[i].menuItemId, items[i].quantity)
  {
    seq(|items|, i requires 0 <= i < |items| => Line(items[i].menuItemId, items[i].quantity))
  }

  function SoldIn(orders: seq<Order>, id: string): int {
    if orders == [] then 0
    else SoldIn(orders[..|orders| - 1], id) + QuantityIn(LinesOf(orders[|orders| - 1].items), id)
  }

  function OrdersOf(orders: seq<Order>, restaurantId: string): nat {
    if orders == [] then 0
    else
      OrdersOf(orders[..|orders| - 1], restaurantId) +
      if orders[|orders| - 1].restaurantId == restaurantId then 1 else 0
  }

  /** The sums are sums: over parts of a list they add up, and one line counts its price or its
      quantity. */
  lemma {:induction false} LinesTotalSplits(a: seq<OrderItem>, b: seq<OrderItem>)
    ensures LinesTotal(a + b) == LinesTotal(a) + LinesTotal(b)
    ensures forall x: OrderItem :: LinesTotal([x]) == x.price * x.quantity
  {
    if b == [] {
      assert a + b == a;
    } else {
      var n := |b| - 1;
      LinesTotalSplits(a, b[..n]);
      assert (a + b)[..|a + b| - 1] == a + b[..n];
    }
  }

  lemma {:induction false} QuantitySplits(a: seq<Line>, b: seq<Line>, id: string)
    ensures QuantityIn(a + b, id) == QuantityIn(a, id) + QuantityIn(b, id)
    ensures forall x: Line :: QuantityIn([x], id) == if x.menuItemId == id then x.quantity else 0
  {
    if b == [] {
      assert a + b == a;
    } else {
      var n := |b| - 1;
      QuantitySplits(a, b[..n], id);
      assert (a + b)[..|a + b| - 1] == a + b[..n];
    }
  }

  lemma {:induction false} SoldSplits(a: seq<Order>, b: seq<Order>, id: string)
    ensures SoldIn(a + b, id) == SoldIn(a, id) + SoldIn(b, id)
    ensures forall x: Order :: SoldIn([x], id) == QuantityIn(LinesOf(x.items), id)
  {
    if b == [] {
      assert a + b == a;
    } else {
      var n := |b| - 1;
      SoldSplits(a, b[..n], id);
      assert (a + b)[..|a + b| - 1] == a + b[..n];
    }
  }

  ghost function OrdersAt(orders: seq<Order>, restaurantId: string): set<int> {
    set i | 0 <= i < |orders| && orders[i].restaurantId == restaurantId
  }

  lemma {:induction false} OrdersCounted(orders: seq<Order>, restaurantId: string)
    ensures OrdersOf(orders, restaurantId) == |OrdersAt(orders, restaurantId)|
  {
    if orders == [] {
      assert OrdersAt(orders, restaurantId) == {};
    } else {
      var n := |orders| - 1;
      OrdersCounted(orders[..n], restaurantId);
      assert OrdersAt(orders[..n], restaurantId) == OrdersAt(orders, restaurantId) - {n};
    }
  }

  /** The lines of a new order, each at the price the menu has for it now. */
  ghost predicate PricedFrom(items: seq<OrderItem>, menu: map<string, MenuItem>, lines: seq<Line>) {
    && |items| == |lines|
    && forall i :: 0 <= i < |lines| ==>
         && Sellable(menu, lines[i])
         && items[i].menuItemId == lines[i].menuItemId && items[i].quantity == lines[i].quantity
         && var m := menu[lines[i].menuItemId];
            items[i].price == if m.discountPrice.Some? then m.discountPrice.value else m.price
  }

  /** The same menu, where each item's counter has grown by the quantity ordered of it. */
  ghost predicate Sold(menu: map<string, MenuItem>, lines: seq<Line>, menu': map<string, MenuItem>) {
    && menu'.Keys == menu.Keys
    && forall id :: id in menu ==>
         menu'[id] == menu[id].(totalSold := menu[id].totalSold + QuantityIn(lines, id))
  }

  function Placed(restaurantId: string, items: seq<OrderItem>, subtotal: int, deliveryFee: int): Order {
    Order(restaurantId, items, subtotal, deliveryFee, 0, subtotal + deliveryFee, PLACED, false,
          None, None, None, None, None)
  }

  // ---- Status changes

  function Transitions(s: Status): set<Status> {
    match s
    case PLACED => {CONFIRMED, CANCELLED}
    case CONFIRMED => {PREPARING, CANCELLED}
    case PREPARING => {READY, CANCELLED}
    case READY => {PICKED_UP, CANCELLED}
    case PICKED_UP => {DELIVERED}
    case DELIVERED => {}
    case CANCELLED => {}
  }

  /** One stage further along, or cancelled before it is picked up. */
  predicate MayFollow(s: Status, next: Status) {
    || (s == PLACED && next == CONFIRMED)
    || (s == CONFIRMED && next == PREPARING)
    || (s == PREPARING && next == READY)
    || (s == READY && next == PICKED_UP)
    || (s == PICKED_UP && next == DELIVERED)
    || (next == CANCELLED && s !in {PICKED_UP, DELIVERED, CANCELLED})
  }

  lemma TransitionTable(s: Status, next: Status)
    ensures next in Transitions(s) <==> MayFollow(s, next)
  {
  }

  function Changed(o: Order, next: Status, now: int): Order {
    var o' := o.(status := next);
    match next
    case CONFIRMED => o'.(confirmedAt := Some(now))
    case READY => o'.(preparedAt := Some(now))
    case PICKED_UP => o'.(pickedUpAt := Some(now))
    case DELIVERED => o'.(deliveredAt := Some(now), paid := true)
    case CANCELLED => o'.(cancelledAt := Some(now))
    case _ => o'
  }

  /** What an order says about itself at any time up to `clock`. */
  predicate OrderOk(o: Order, clock: int) {
    && o.subtotal == LinesTotal(o.items)
    && o.total == o.subtotal + o.deliveryFee
    && (o.paid <==> o.status == DELIVERED)
    && StampsOk(o, clock)
  }

  predicate NotAfter(a: Optional<int>, b: Optional<int>) {
    a.Some? && b.Some? ==> a.value <= b.value
  }

  /** Time stamps are set exactly for the stages reached, and in order. */
  predicate StampsOk(o: Order, clock: int) {
    && (o.status != CANCELLED ==>
          && (o.confirmedAt.Some? <==> o.status != PLACED)
          && (o.preparedAt.Some? <==> o.status in {READY, PICKED_UP, DELIVERED})
          && (o.pickedUpAt.Some? <==> o.status in {PICKED_UP, DELIVERED}))
    && (o.status == CANCELLED ==> o.pickedUpAt.None? && (o.preparedAt.Some? ==> o.confirmedAt.Some?))
    && (o.deliveredAt.Some? <==> o.status == DELIVERED)
    && (o.cancelledAt.Some? <==> o.status == CANCELLED)
    && NotAfter(o.confirmedAt, o.preparedAt) && NotAfter(o.preparedAt, o.pickedUpAt)
    && NotAfter(o.pickedUpAt, o.deliveredAt)
    && NotAfter(o.confirmedAt, o.cancelledAt) && NotAfter(o.preparedAt, o.cancelledAt)
    && NotAfter(o.confirmedAt, Some(clock)) && NotAfter(o.preparedAt, Some(clock))
    && NotAfter(o.pickedUpAt, Some(clock)) && NotAfter(o.deliveredAt, Some(clock))
    && NotAfter(o.cancelledAt, Some(clock))
  }

  class OrdersService {
    var menu: map<string, MenuItem>
    var restaurants: map<string, Restaurant>
    var orders: seq<Order>
    ghost var clock: int

    /** The counters and totals agree with the orders placed. Kept by every method, so true at
        the end of every run. */
    ghost predicate Valid()
      reads this
    {
      && (forall id :: id in menu ==> menu[id].totalSold == SoldIn(orders, id))
      && (forall r :: r in restaurants ==> restaurants[r].totalOrders == OrdersOf(orders, r))
      && (forall i :: 0 <= i < |orders| ==> OrderOk(orders[i], clock))
    }

    constructor (menu: map<string, MenuItem>, restaurants: map<string, Restaurant>)
      requires forall id :: id in menu ==> menu[id].totalSold == 0
      requires forall r :: r in restaurants ==> restaurants[r].totalOrders == 0
      ensures Valid() && orders == [] && this.menu == menu && this.restaurants == restaurants
    {
      this.menu, this.restaurants, this.orders, this.clock := menu, restaurants, [], 0;
    }

    method Create(restaurantId: string, lines: seq<Line>) returns (r: CreateResult)
      requires Valid()
      modifies this
      ensures Valid() && clock == old(clock)
      ensures r.NoItems? <==> lines == []
      ensures lines != [] ==> (r.RestaurantNotFound? <==> restaurantId !in old(restaurants))
      ensures lines != [] && restaurantId in old(restaurants) ==>
                (r.RestaurantClosed? <==> !old(restaurants)[restaurantId].isOpen)
      ensures r.ItemNotFound? ==> r.index < |lines| && lines[r.index].menuItemId !in old(menu)
      ensures r.ItemNotAvailable? ==>
                && r.index < |lines| && lines[r.index].menuItemId in old(menu)
                && !old(menu)[lines[r.index].menuItemId].available
      ensures r.ItemNotFound? || r.ItemNotAvailable? ==>
                forall i :: 0 <= i < r.index ==> Sellable(old(menu), lines[i])
      ensures r.BelowMinimum? ==> restaurantId in old(restaurants) && exists items ::
                PricedFrom(items, old(menu), lines) && LinesTotal(items) < old(restaurants)[restaurantId].minOrderValue
      ensures !r.Created? ==> orders == old(orders) && menu == old(menu) && restaurants == old(restaurants)
      ensures r.Created? ==>
        && restaurantId in old(restaurants)
        && |orders| == |old(orders)| + 1 && orders[..|old(orders)|] == old(orders)
        && var o, rest := orders[|old(orders)|], old(restaurants)[restaurantId];
           && PricedFrom(o.items, old(menu), lines)
           && o == Placed(restaurantId, o.items, LinesTotal(o.items), rest.deliveryFee)
           && o.restaurantId == restaurantId && o.status == PLACED && !o.paid
           && o.deliveryFee == rest.deliveryFee && o.discount == 0 && o.total == o.subtotal + rest.deliveryFee
           && o.confirmedAt == o.preparedAt == o.pickedUpAt == o.deliveredAt == o.cancelledAt == None
           && o.subtotal >= rest.minOrderValue
           && restaurants == old(restaurants)[restaurantId := rest.(totalOrders := rest.totalOrders + 1)]
           && Sold(old(menu), lines, menu)
    {
      hide OrderOk, LinesTotal, QuantityIn, SoldIn, OrdersOf, Sold;
      if |lines| == 0 { return NoItems; }
      if restaurantId !in restaurants { return RestaurantNotFound; }
      var restaurant := restaurants[restaurantId];
      if !restaurant.isOpen { return RestaurantClosed; }

      var items, subtotal;
      r, items, subtotal := PriceItems(lines);
      if !r.Created? { return; }
      if subtotal < restaurant.minOrderValue { return BelowMinimum; }

      PlaceOrder(restaurantId, lines, items);
      return Created;
    }

    /** The writes of `create`. */
    method PlaceOrder(restaurantId: string, lines: seq<Line>, items: seq<OrderItem>)
      requires Valid() && restaurantId in restaurants && PricedFrom(items, menu, lines)
      modifies this`menu, this`restaurants, this`orders
      ensures Valid()
      ensures var rest := old(restaurants)[restaurantId];
              && orders == old(orders) + [Placed(restaurantId, items, LinesTotal(items), rest.deliveryFee)]
              && restaurants == old(restaurants)[restaurantId := rest.(totalOrders := rest.totalOrders + 1)]
              && Sold(old(menu), lines, menu)
    {
      hide OrderOk, LinesTotal, Placed, LinesOf;
      var restaurant := restaurants[restaurantId];
      var order := Placed(restaurantId, items, LinesTotal(items), restaurant.deliveryFee);
      forall i | 0 <= i < |lines| ensures Sellable(menu, lines[i]) { }
      PlacedIsOk(restaurantId, items, restaurant.deliveryFee, clock);
      orders := orders + [order];
      assert orders[..|orders| - 1] == old(orders);
      assert LinesOf(items) == lines;
      CountSold(lines);
      restaurants := restaurants[restaurantId := restaurant.(totalOrders := restaurant.totalOrders + 1)];
      forall i | 0 <= i < |orders| ensures OrderOk(orders[i], clock) {
        if i < |old(orders)| { assert orders[i] == old(orders)[i]; }
      }
    }

    /** The first loop of `create`: look every item up, price it, and add up. */
    method PriceItems(lines: seq<Line>) returns (r: CreateResult, items: seq<OrderItem>, subtotal: int)
      ensures r.Created? || r.ItemNotFound? || r.ItemNotAvailable?
      ensures r.Created? ==> PricedFrom(items, menu, lines) && subtotal == LinesTotal(items)
      ensures r.ItemNotFound? ==> r.index < |lines| && lines[r.index].menuItemId !in menu
      ensures r.ItemNotAvailable? ==>
                && r.index < |lines| && lines[r.index].menuItemId in menu
                && !menu[lines[r.index].menuItemId].available
      ensures !r.Created? ==> forall i :: 0 <= i < r.index ==> Sellable(menu, lines[i])
    {
      items, subtotal := [], 0;
      var i := 0;
      while i < |lines|
        invariant 0 <= i <= |lines|
        invariant PricedFrom(items, menu, lines[..i]) && subtotal == LinesTotal(items)
        invariant forall j :: 0 <= j < i ==> Sellable(menu, lines[j])
      {
        var l := lines[i];
        if l.menuItemId !in menu { return ItemNotFound(i), [], 0; }
        var m := menu[l.menuItemId];
        if !m.available { return ItemNotAvailable(i), [], 0; }
        var price := if m.discountPrice.Some? then m.discountPrice.value else m.price;
        subtotal := subtotal + price * l.quantity;
        var longer := items + [OrderItem(l.menuItemId, price, l.quantity)];
        assert longer[..|items|] == items;
        assert lines[..i + 1] == lines[..i] + [l];
        items := longer;
        i := i + 1;
      }
      assert lines[..i] == lines;
      r := Created;
    }

    /** The second loop of `create`: one increment per requested line. */
    method CountSold(lines: seq<Line>)
      requires forall i :: 0 <= i < |lines| ==> Sellable(menu, lines[i])
      modifies this`menu
      ensures Sold(old(menu), lines, menu)
    {
      var i := 0;
      while i < |lines|
        invariant 0 <= i <= |lines|
        invariant Sold(old(menu), lines[..i], menu)
      {
        var l := lines[i];
        assert Sellable(old(menu), l);
        menu := menu[l.menuItemId := menu[l.menuItemId].(totalSold := menu[l.menuItemId].totalSold + l.quantity)];
        assert lines[..i + 1][..i] == lines[..i];
        i := i + 1;
      }
      assert lines[..i] == lines;
    }

    /** `next` is absent when the request names no known status. */
    method UpdateStatus(index: nat, next: Optional<Status>, now: int) returns (r: UpdateResult)
      requires Valid() && clock <= now
      modifies this`orders, this`clock
      ensures Valid() && clock == now
      ensures r.OrderNotFound? <==> index >= |old(orders)|
      ensures r.Updated? <==> index < |old(orders)| && next.Some?
                              && next.value in Transitions(old(orders)[index].status)
      ensures orders == if r.Updated? then old(orders)[index := Changed(old(orders)[index], next.value, now)]
                        else old(orders)
      ensures index < |old(orders)| && next.Some? ==>
                (r.Updated? <==> MayFollow(old(orders)[index].status, next.value))
      ensures r.Updated? ==>
        var o, o', n := old(orders)[index], orders[index], next.value;
        && o'.status == n
        && o'.paid == (o.paid || n == DELIVERED)
        && o'.confirmedAt == (if n == CONFIRMED then Some(now) else o.confirmedAt)
        && o'.preparedAt == (if n == READY then Some(now) else o.preparedAt)
        && o'.pickedUpAt == (if n == PICKED_UP then Some(now) else o.pickedUpAt)
        && o'.deliveredAt == (if n == DELIVERED then Some(now) else o.deliveredAt)
        && o'.cancelledAt == (if n == CANCELLED then Some(now) else o.cancelledAt)
        && o'.items == o.items && o'.total == o.total && o'.restaurantId == o.restaurantId
    {
      hide Transitions, MayFollow, StampsOk, LinesTotal, SoldIn, OrdersOf, OrderOk;
      if index < |orders| && next.Some? { TransitionTable(orders[index].status, next.value); }
      clock := now;
      forall i | 0 <= i < |orders| ensures OrderOk(orders[i], now) { OkLater(orders[i], old(clock), now); }
      if index >= |orders| { return OrderNotFound; }
      var order := orders[index];
      if next.None? || next.value !in Transitions(order.status) { return InvalidTransition; }
      ChangedIsOk(order, next.value, now);
      order := Updates(order, next.value, now);
      ReplacedOrderCounts(orders, index, order);
      orders := orders[index := order];
      return Updated;
    }

    /** The columns an accepted change sets. */
    method Updates(order: Order, next: Status, now: int) returns (updated: Order)
      ensures updated == Changed(order, next, now)
    {
      updated := order.(status := next);
      match next {
        case CONFIRMED => updated := updated.(confirmedAt := Some(now));
        case READY => updated := updated.(preparedAt := Some(now));
        case PICKED_UP => updated := updated.(pickedUpAt := Some(now));
        case DELIVERED => updated := updated.(deliveredAt := Some(now), paid := true);
        case CANCELLED => updated := updated.(cancelledAt := Some(now));
        case _ =>
      }
    }
  }

  lemma PlacedIsOk(restaurantId: string, items: seq<OrderItem>, deliveryFee: int, clock: int)
    ensures var o := Placed(restaurantId, items, LinesTotal(items), deliveryFee);
            OrderOk(o, clock) && o.items == items && o.restaurantId == restaurantId
  {
  }

  lemma OkLater(o: Order, clock: int, now: int)
    requires OrderOk(o, clock) && clock <= now
    ensures OrderOk(o, now)
  {
  }

  /** An allowed change keeps what an order says about itself. */
  lemma ChangedIsOk(o: Order, next: Status, now: int)
    requires OrderOk(o, now) && next in Transitions(o.status)
    ensures OrderOk(Changed(o, next, now), now)
    ensures Changed(o, next, now).items == o.items && Changed(o, next, now).restaurantId == o.restaurantId
  {
  }

  lemma {:induction false} ReplacedOrderCounts(orders: seq<Order>, i: nat, o: Order)
    requires i < |orders| && o.items == orders[i].items && o.restaurantId == orders[i].restaurantId
    ensures forall id :: SoldIn(orders[i := o], id) == SoldIn(orders, id)
    ensures forall r :: OrdersOf(orders[i := o], r) == OrdersOf(orders, r)
  {
    var n := |orders| - 1;
    if i == n {
      assert orders[i := o][..n] == orders[..n];
    } else {
      ReplacedOrderCounts(orders[..n], i, o);
      assert orders[i := o][..n] == orders[..n][i := o];
    }
  }

  // ---- The life of one order

  datatype Request = Request(next: Optional<Status>, at: int)

  datatype Life = Life(order: Order, accepted: seq<Request>)

  function Try(l: Life, q: Request): Life {
    if Accepts(l, q)
    then Life(Changed(l.order, q.next.value, q.at), l.accepted + [q])
    else l
  }

  function Live(l: Life, requests: seq<Request>): Life
    decreases |requests|
  {
    if requests == [] then l else Live(Try(l, requests[0]), requests[1..])
  }

  /** How far along a status is; every allowed change goes up. */
  function Rank(s: Status): nat {
    match s
    case PLACED => 0 case CONFIRMED => 1 case PREPARING => 2 case READY => 3
    case PICKED_UP => 4 case DELIVERED => 5 case CANCELLED => 5
  }

  function StampOf(o: Order, s: Status): Optional<int> {
    match s
    case CONFIRMED => o.confirmedAt
    case READY => o.preparedAt
    case PICKED_UP => o.pickedUpAt
    case DELIVERED => o.deliveredAt
    case CANCELLED => o.cancelledAt
    case _ => None
  }

  /** Each stamp is the time of its accepted change. */
  ghost predicate StampInv(l: Life) {
    forall s, t :: s != PREPARING && s != PLACED ==>
      (StampOf(l.order, s) == Some(t) <==> Request(Some(s), t) in l.accepted)
  }

  ghost predicate RankInv(l: Life) {
    var n := |l.accepted|;
    && n <= Rank(l.order.status)
    && (forall k :: 0 <= k < n ==> l.accepted[k].next.Some? && Rank(l.accepted[k].next.value) <= Rank(l.order.status))
    && (forall j, k :: 0 <= j < k < n ==> Rank(l.accepted[j].next.value) < Rank(l.accepted[k].next.value))
  }

  predicate Accepts(l: Life, q: Request) {
    q.next.Some? && q.next.value in Transitions(l.order.status)
  }

  lemma ChangeRanksUp(s: Status, next: Status)
    requires next in Transitions(s)
    ensures Rank(s) < Rank(next)
  {
  }

  lemma AcceptedRanks(l: Life, q: Request)
    requires RankInv(l) && Accepts(l, q)
    ensures RankInv(Try(l, q))
  {
    hide Transitions, Rank;
    ChangeRanksUp(l.order.status, q.next.value);
    assert Try(l, q).order.status == q.next.value;
  }

  /** A change that is allowed has not been accepted before. */
  lemma AcceptedStamps(l: Life, q: Request)
    requires RankInv(l) && StampInv(l) && Accepts(l, q)
    ensures StampInv(Try(l, q))
  {
    hide Changed, Transitions, StampOf;
    var l' := Try(l, q);
    forall s, t | s != PREPARING && s != PLACED
      ensures StampOf(l'.order, s) == Some(t) <==> Request(Some(s), t) in l'.accepted
    {
      assert StampOf(l.order, s) == Some(t) <==> Request(Some(s), t) in l.accepted;
      ChangedStamp(l.order, q.next.value, q.at, s);
      NotAcceptedBefore(l, q, t);
      assert l'.accepted[|l.accepted|] == q;
    }
  }

  lemma NotAcceptedBefore(l: Life, q: Request, t: int)
    requires RankInv(l) && Accepts(l, q)
    ensures Request(q.next, t) !in l.accepted
  {
  }

  lemma ChangedStamp(o: Order, next: Status, now: int, s: Status)
    requires s != PREPARING && s != PLACED
    ensures StampOf(Changed(o, next, now), s) == if s == next then Some(now) else StampOf(o, s)
  {
  }

  lemma {:induction false} LiveKeepsInv(l: Life, requests: seq<Request>)
    requires RankInv(l) && StampInv(l)
    ensures RankInv(Live(l, requests)) && StampInv(Live(l, requests))
    decreases |requests|
  {
    if requests != [] {
      if Accepts(l, requests[0]) {
        AcceptedRanks(l, requests[0]);
        AcceptedStamps(l, requests[0]);
      }
      LiveKeepsInv(Try(l, requests[0]), requests[1..]);
    }
  }

  /** Whatever is requested of a placed order, at most five changes are ever accepted, none
      twice, and each time stamp is that of the accepted change it belongs to. */
  lemma OrderLife(restaurantId: string, items: seq<OrderItem>, subtotal: int, fee: int, requests: seq<Request>)
    ensures var l := Live(Life(Placed(restaurantId, items, subtotal, fee), []), requests);
            && |l.accepted| <= 5
            && (forall j, k :: 0 <= j < k < |l.accepted| ==> l.accepted[j].next != l.accepted[k].next)
            && (forall s, t :: s != PREPARING && s != PLACED ==>
                  (StampOf(l.order, s) == Some(t) <==> Request(Some(s), t) in l.accepted))
  {
    LiveKeepsInv(Life(Placed(restaurantId, items, subtotal, fee), []), requests);
  }
}
