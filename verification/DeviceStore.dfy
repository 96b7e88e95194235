/** The remote devices of the adapter: the bonded and the cached list, the pairing state of a device on its two
    bearers, and the bond events sent to Android. */
module DeviceStore {
  import opened Common

  const DEVICES_CACHE_MAX := 300

  /** A device structure; two structures may carry the same address. */
  type Id = nat

  datatype Bearer = BREDR | LE

  datatype Bond = NONE | BONDING | BONDED

  datatype Flags = Flags(paired: bool, bonded: bool)

  datatype Device = Device(addr: nat, rpa: nat, pairing: bool, bredr: Flags, le: Flags, csrk: bool)
  {
    function On(bearer: Bearer): Flags {
      if bearer == BREDR then bredr else le
    }

    function Paired(): bool {
      bredr.paired || le.paired
    }

    /** device_bond_state */
    function BondState(): Bond {
      if pairing then BONDING else if Paired() then BONDED else NONE
    }

    predicate Ok() {
      (bredr.bonded ==> bredr.paired) && (le.bonded ==> le.paired)
    }

    /** Pairing is under way on a bearer that is paired already, or has just failed there. */
    predicate Kept(bearer: Bearer, pairing': bool, paired: bool) {
      On(bearer).paired && (pairing' || (!paired && pairing))
    }

    predicate Unchanged(bearer: Bearer, pairing': bool, paired: bool, bonded: bool) {
      pairing' == pairing && On(bearer) == Flags(paired, bonded)
    }

    /** The device after update_bredr_state or update_le_state; losing the last pairing on LE forgets the signing
        keys. */
    function Updated(bearer: Bearer, pairing': bool, paired: bool, bonded: bool): Device {
      if Unchanged(bearer, pairing', paired, bonded) then this
      else if Kept(bearer, pairing', paired) then this.(pairing := pairing')
      else
        var flags := Flags(paired, paired && (On(bearer).bonded || bonded));
        if bearer == BREDR then this.(bredr := flags, pairing := pairing')
        else this.(le := flags, pairing := pairing', csrk := csrk && (paired || bredr.paired))
    }

    /** One bearer never touches the other, bonded implies paired, and neither an incoming pairing request nor a failed
        pairing unpairs a paired bearer. */
    lemma UpdatedFlags(bearer: Bearer, pairing': bool, paired: bool, bonded: bool)
      requires Ok()
      ensures var d := Updated(bearer, pairing', paired, bonded);
              && d.Ok() && d.pairing == pairing' && d.addr == addr && d.rpa == rpa
              && (bearer == BREDR ==> d.le == le && d.csrk == csrk) && (bearer == LE ==> d.bredr == bredr)
              && (On(bearer).paired && (pairing' || pairing) ==> d.On(bearer) == On(bearer) || paired)
              && (d.On(bearer).paired <==> paired || Kept(bearer, pairing', paired))
              && (On(bearer).bonded && d.On(bearer).paired ==> d.On(bearer).bonded)
    {
    }

    /** A bearer told that it is bonded is bonded from then on, unless a pairing that is under way or has failed leaves
        it as it is; and the signing keys go with the last pairing on LE, not before. */
    lemma UpdatedBonds(bearer: Bearer, pairing': bool, paired: bool, bonded: bool)
      requires Ok()
      ensures var d := Updated(bearer, pairing', paired, bonded);
              && (if On(bearer).paired && (pairing' || (!paired && pairing)) then d.On(bearer) == On(bearer)
                  else (d.On(bearer).paired <==> paired)
                       && (d.On(bearer).bonded <==> paired && (On(bearer).bonded || bonded)))
              && (bearer == LE ==> (d.csrk <==> csrk && (d.bredr.paired || d.le.paired
                                                         || (pairing' == pairing && le == Flags(paired, bonded)))))
    {
    }

    /** Whether some bearer is paired after the update. */
    predicate PairedAfter(bearer: Bearer, pairing': bool, paired: bool) {
      var other := if bearer == BREDR then le else bredr;
      paired || other.paired || (On(bearer).paired && (pairing || pairing'))
    }

    lemma PairedAfterUpdate(bearer: Bearer, pairing': bool, paired: bool, bonded: bool)
      ensures var d := Updated(bearer, pairing', paired, bonded);
              (d.bredr.paired || d.le.paired <==> PairedAfter(bearer, pairing', paired)) && d.pairing == pairing'
    {
    }
  }

  /** create_device */
  function NewDevice(addr: nat): Device {
    Device(addr, 0, false, Flags(false, false), Flags(false, false), false)
  }

  // ---------------------------------------------------------------- the two lists

  /** An abstract cache: when each device in it was last cached. */
  datatype Lru = Lru(stamp: map<Id, nat>, clock: nat)
  {
    ghost predicate Oldest(id: Id) {
      id in stamp && forall d <- stamp :: stamp[id] <= stamp[d]
    }

    /** `next` is the cache after `id` has been cached; `evicted` has lost its place if there was none left. */
    ghost predicate Cached(id: Id, evicted: Option<Id>, next: Lru) {
      next.clock == clock + 1 &&
      match evicted
      case None => (id in stamp || |stamp| < DEVICES_CACHE_MAX) && next.stamp == stamp[id := clock]
      case Some(gone) => id !in stamp && |stamp| >= DEVICES_CACHE_MAX && Oldest(gone)
                         && next.stamp == (stamp - {gone})[id := clock]
    }
  }

  /** Most recently cached first. */
  ghost predicate Descending(xs: seq<Id>, stamp: map<Id, nat>, bound: nat) {
    xs == [] || (xs[0] in stamp && stamp[xs[0]] < bound && Descending(xs[1..], stamp, stamp[xs[0]]))
  }

  lemma {:induction false} DescendingMembers(xs: seq<Id>, stamp: map<Id, nat>, bound: nat)
    requires Descending(xs, stamp, bound)
    ensures NoDup(xs) && forall d <- xs :: d in stamp && stamp[d] < bound
  {
    if xs == [] {
    } else {
      DescendingMembers(xs[1..], stamp, stamp[xs[0]]);
      assert xs == [xs[0]] + xs[1..];
      assert forall j :: 0 < j < |xs| ==> xs[j] == xs[1..][j - 1] && xs[1..][j - 1] in xs[1..];
    }
  }

  lemma {:induction false} LastIsOldest(xs: seq<Id>, stamp: map<Id, nat>, bound: nat)
    requires Descending(xs, stamp, bound) && xs != []
    ensures forall d <- xs :: d in stamp && xs[|xs| - 1] in stamp && stamp[xs[|xs| - 1]] <= stamp[d]
  {
    DescendingMembers(xs, stamp, bound);
    if |xs| <= 1 {
    } else {
      LastIsOldest(xs[1..], stamp, stamp[xs[0]]);
      DescendingMembers(xs[1..], stamp, stamp[xs[0]]);
      assert xs == [xs[0]] + xs[1..] && xs[1..][|xs| - 2] == xs[|xs| - 1];
      assert xs[|xs| - 1] in xs[1..];
    }
  }

  lemma {:induction false} RemoveAbsent(xs: seq<Id>, id: Id)
    requires id !in xs
    ensures Remove(xs, id) == xs
  {
    if xs == [] {
    } else {
      RemoveAbsent(xs[1..], id);
    }
  }

  lemma {:induction false} DescendingWeaker(xs: seq<Id>, stamp: map<Id, nat>, bound: nat, higher: nat)
    requires Descending(xs, stamp, bound) && bound <= higher
    ensures Descending(xs, stamp, higher)
  {
  }

  /** Taking `id` out, and forgetting or renewing its time, leaves the order of the others. */
  lemma {:induction false} DescendingRemove(xs: seq<Id>, stamp: map<Id, nat>, now: map<Id, nat>, bound: nat, id: Id)
    requires Descending(xs, stamp, bound)
    requires forall d <- stamp :: d != id ==> d in now && now[d] == stamp[d]
    ensures Descending(Remove(xs, id), now, bound)
  {
    if xs == [] {
    } else {
      DescendingRemove(xs[1..], stamp, now, stamp[xs[0]], id);
      if xs[0] == id {
        DescendingMembers(xs[1..], stamp, stamp[xs[0]]);
        RemoveAbsent(xs[1..], id);
        DescendingWeaker(xs[1..], now, stamp[xs[0]], bound);
      }
    }
  }

  lemma {:induction false} Size(xs: seq<Id>, s: set<Id>)
    requires NoDup(xs) && forall d :: d in s <==> d in xs
    ensures |s| == |xs|
  {
    if xs != [] {
      assert xs == [xs[0]] + xs[1..];
      Size(xs[1..], s - {xs[0]});
    } else {
      assert s == {};
    }
  }

  lemma {:induction false} RemoveLength(xs: seq<Id>, id: Id)
    ensures |Remove(xs, id)| == if id in xs then |xs| - 1 else |xs|
  {
    if xs == [] {
    } else {
      RemoveLength(xs[1..], id);
      assert xs == [xs[0]] + xs[1..];
    }
  }

  lemma Restamp(stamp: map<Id, nat>, id: Id, time: nat)
    ensures (stamp - {id})[id := time] == stamp[id := time]
  {
  }

  /** The cached list together with the abstract cache it stands for. */
  datatype Cached = Cached(list: seq<Id>, lru: Lru)
  {
    ghost predicate Ok() {
      && |list| <= DEVICES_CACHE_MAX && Descending(list, lru.stamp, lru.clock)
      && forall d :: d in list <==> d in lru.stamp
    }

    /** The device that loses its place when `id` is cached. */
    function Evicted(id: Id): Option<Id> {
      if id in list || |list| < DEVICES_CACHE_MAX then None else Some(list[|list| - 1])
    }

    function Dropped(id: Id): Cached {
      Cached(Remove(list, id), lru.(stamp := lru.stamp - {id}))
    }

    /** cache_device */
    function Add(id: Id): Cached {
      var rest := if Evicted(id).Some? then Dropped(Evicted(id).value) else Dropped(id);
      Cached([id] + rest.list, Lru(rest.lru.stamp[id := lru.clock], lru.clock + 1))
    }

    lemma DroppedOk(id: Id)
      requires Ok()
      ensures Dropped(id).Ok() && NoDup(list)
      ensures forall d :: d in Dropped(id).list <==> d in list && d != id
    {
      DescendingMembers(list, lru.stamp, lru.clock);
      DescendingRemove(list, lru.stamp, lru.stamp - {id}, lru.clock, id);
      RemoveSpec(list, id);
      RemoveLength(list, id);
    }

    /** What has to go to make room for `id` at the front. */
    function Gone(id: Id): Id {
      if Evicted(id).Some? then Evicted(id).value else id
    }

    lemma AddOk(id: Id)
      requires Ok()
      ensures Add(id).Ok()
      ensures forall d :: d in Add(id).list <==> d == id || (d in list && Some(d) != Evicted(id))
    {
      var gone := Gone(id);
      var stamp := Add(id).lru.stamp;
      DroppedOk(gone);
      DescendingRemove(list, lru.stamp, stamp, lru.clock, gone);
      RemoveLength(list, gone);
      assert Evicted(id).Some? ==> gone in list;
      var all := [id] + Remove(list, gone);
      assert Add(id).list == all && all[1..] == Remove(list, gone);
    }

    lemma StampSize()
      requires Ok()
      ensures |lru.stamp| == |list|
    {
      DescendingMembers(list, lru.stamp, lru.clock);
      Size(list, lru.stamp.Keys);
    }

    lemma EvictedIsOldest(id: Id)
      requires Ok() && Evicted(id).Some?
      ensures id !in lru.stamp && lru.Oldest(Evicted(id).value)
    {
      LastIsOldest(list, lru.stamp, lru.clock);
      assert Evicted(id).value in list;
    }

    /** cache_device refines the abstract cache: the list stays in order and within its bound, and only the device that
        has not been cached for longest ever loses its place. */
    lemma AddRefines(id: Id)
      requires Ok()
      ensures Add(id).Ok() && lru.Cached(id, Evicted(id), Add(id).lru)
    {
      AddOk(id);
      StampSize();
      if Evicted(id).Some? {
        EvictedIsOldest(id);
      } else {
        Restamp(lru.stamp, id, lru.clock);
      }
    }
  }

  datatype Store = Store(devs: map<Id, Device>, bonded: seq<Id>, cached: Cached)
  {
    ghost predicate Placed(id: Id) {
      && (id in bonded <==> id in devs && devs[id].Paired())
      && (id in cached.list <==> id in devs && !devs[id].Paired())
      && (id in devs ==> devs[id].Ok())
    }

    /** Every known device is in exactly one list: the bonded one exactly when it is paired on some bearer. */
    ghost predicate Inv() {
      NoDup(bonded) && cached.Ok() && forall id {:trigger Placed(id)} :: Placed(id)
    }

    /** cache_device, which frees the device it evicts */
    function Cache(id: Id): Store {
      this.(cached := cached.Add(id),
            devs := if cached.Evicted(id).Some? then devs - {cached.Evicted(id).value} else devs)
    }

    /** get_device for an unknown address */
    function Created(id: Id, addr: nat): Store {
      var g := Cache(id);
      g.(devs := g.devs[id := NewDevice(addr)])
    }

    /** Pairing starts with the only device. */
    lemma FirstPairing(id: Id, addr: nat)
      requires Inv() && devs == map[id := NewDevice(addr)] && cached.list == [id]
      ensures var g := Updated(id, BREDR, true, false, false);
              g.devs == map[id := NewDevice(addr).(pairing := true)] && g.cached.list == [id]
    {
    }

    /** The device that goes when a new one is cached. */
    function LastOfFull(): Option<Id> {
      if |cached.list| < DEVICES_CACHE_MAX then None else Some(cached.list[|cached.list| - 1])
    }

    lemma FrontAgain(id: Id, rest: seq<Id>)
      ensures Remove([id] + rest, id) == rest
    {
      assert ([id] + rest)[1..] == rest;
    }

    /** A new device, cached twice over when it is found. */
    lemma FoundNew(id: Id, addr: nat)
      requires Inv() && id !in devs
      ensures var g, last := Created(id, addr).Cache(id), LastOfFull();
              if last.Some? then
                && g.cached.list == [id] + Remove(cached.list, last.value)
                && g.devs == (devs - {last.value})[id := NewDevice(addr)]
              else
                g.cached.list == [id] + cached.list && g.devs == devs[id := NewDevice(addr)]
    {
      assert Placed(id);
      assert cached.Evicted(id) == LastOfFull();
      RemoveAbsent(cached.list, id);
      var once := Created(id, addr);
      var rest := if LastOfFull().Some? then Remove(cached.list, LastOfFull().value) else cached.list;
      assert once.cached.list == [id] + rest;
      FrontAgain(id, rest);
      assert id in once.cached.list;
      assert once.cached.Evicted(id).None?;
      assert once.Cache(id).cached.list == [id] + Remove(once.cached.list, id);
    }

    /** How the lists change in update_bredr_state and update_le_state, before the flags do. */
    function Relisted(id: Id, bearer: Bearer, paired: bool): Store
      requires id in devs
    {
      var other := devs[id].On(if bearer == BREDR then LE else BREDR);
      if paired && !devs[id].Paired() then this.(cached := cached.Dropped(id), bonded := [id] + bonded)
      else if !paired && !other.paired then this.(bonded := Remove(bonded, id)).Cache(id)
      else this
    }

    /** update_bredr_state and update_le_state */
    function Updated(id: Id, bearer: Bearer, pairing: bool, paired: bool, bonded': bool): Store
      requires id in devs
    {
      var d := devs[id];
      var next := d.Updated(bearer, pairing, paired, bonded');
      if d.Unchanged(bearer, pairing, paired, bonded') || d.Kept(bearer, pairing, paired) then
        this.(devs := devs[id := next])
      else
        var g := Relisted(id, bearer, paired);
        g.(devs := g.devs[id := next])
    }

    /** Where an update leaves the lists: a device that is paired for the first time goes to the front of the bonded
        ones, one that is not paired any more, or still not, to the front of the cached ones; and a pairing that is
        under way or has failed on a paired bearer moves nothing, nor does an update that says nothing new. */
    lemma ListsFollow(id: Id, bearer: Bearer, pairing: bool, paired: bool, bonded': bool)
      requires Inv() && id in devs
      ensures var d, g := devs[id], Updated(id, bearer, pairing, paired, bonded');
              var same := (pairing == d.pairing && d.On(bearer) == Flags(paired, bonded'))
                          || (d.On(bearer).paired && (pairing || (!paired && d.pairing)));
              if same then g.bonded == bonded && g.cached.list == cached.list
              else if paired && !d.bredr.paired && !d.le.paired then
                g.bonded == [id] + bonded && g.cached.list == Remove(cached.list, id)
              else if id in g.devs && !g.devs[id].bredr.paired && !g.devs[id].le.paired then
                g.bonded == Remove(bonded, id) && g.cached.list != [] && g.cached.list[0] == id
              else g.bonded == bonded && g.cached.list == cached.list
    {
      assert Placed(id);
    }

    lemma CacheInv(id: Id)
      requires Inv() && id in devs && !devs[id].Paired()
      ensures Cache(id).Inv() && id in Cache(id).devs && Cache(id).devs[id] == devs[id]
    {
      cached.AddOk(id);
      assert Placed(id);
      forall e ensures Cache(id).Placed(e) {
        assert Placed(e);
      }
    }

    lemma CreatedInv(id: Id, addr: nat)
      requires Inv() && id !in devs
      ensures Created(id, addr).Inv()
    {
      cached.AddOk(id);
      assert Placed(id);
      forall e ensures Created(id, addr).Placed(e) {
        assert Placed(e);
        assert cached.Evicted(id).Some? ==> cached.Evicted(id).value in cached.list;
      }
    }

    /** A device moves to the bonded list. */
    lemma PromotedInv(id: Id, next: Device)
      requires Inv() && id in devs && !devs[id].Paired() && next.Paired() && next.Ok()
      ensures this.(cached := cached.Dropped(id), bonded := [id] + bonded, devs := devs[id := next]).Inv()
    {
      var g := this.(cached := cached.Dropped(id), bonded := [id] + bonded, devs := devs[id := next]);
      cached.DroppedOk(id);
      assert Placed(id);
      forall e ensures g.Placed(e) {
        assert Placed(e);
      }
    }

    /** A device that is not paired any more is cached. */
    lemma DemotedInv(id: Id, next: Device)
      requires Inv() && id in devs && !next.Paired() && next.Ok()
      ensures var g := this.(bonded := Remove(bonded, id)).Cache(id); g.(devs := g.devs[id := next]).Inv()
    {
      var c := this.(bonded := Remove(bonded, id)).Cache(id);
      var g := c.(devs := c.devs[id := next]);
      cached.AddOk(id);
      RemoveSpec(bonded, id);
      forall e ensures g.Placed(e) {
        assert Placed(e);
        assert cached.Evicted(id).Some? ==> cached.Evicted(id).value in cached.list;
      }
    }

    lemma KeptInv(id: Id, next: Device)
      requires Inv() && id in devs && next.Paired() == devs[id].Paired() && next.Ok()
      ensures this.(devs := devs[id := next]).Inv()
    {
      var g := this.(devs := devs[id := next]);
      forall e ensures g.Placed(e) {
        assert Placed(e);
      }
    }

    lemma UpdatedInv(id: Id, bearer: Bearer, pairing: bool, paired: bool, bonded': bool)
      requires Inv() && id in devs
      ensures Updated(id, bearer, pairing, paired, bonded').Inv()
    {
      var d := devs[id];
      var next := d.Updated(bearer, pairing, paired, bonded');
      assert Placed(id);
      d.UpdatedFlags(bearer, pairing, paired, bonded');
      var other := d.On(if bearer == BREDR then LE else BREDR);
      if d.Unchanged(bearer, pairing, paired, bonded') || d.Kept(bearer, pairing, paired) {
        KeptInv(id, next);
      } else if paired && !d.Paired() {
        PromotedInv(id, next);
      } else if !paired && !other.paired {
        DemotedInv(id, next);
      } else {
        KeptInv(id, next);
      }
    }

    lemma EvictedUnpaired(id: Id)
      requires Inv()
      ensures cached.Evicted(id).Some? ==> cached.Evicted(id).value in devs && !devs[cached.Evicted(id).value].Paired()
                                           && cached.Evicted(id).value != id
    {
      if cached.Evicted(id).Some? {
        assert cached.Evicted(id).value in cached.list && Placed(cached.Evicted(id).value);
      }
    }

    lemma UpdatedKeys(id: Id, bearer: Bearer, pairing: bool, paired: bool, bonded': bool)
      requires Inv() && id in devs
      ensures var g := Updated(id, bearer, pairing, paired, bonded');
              && id in g.devs && g.devs[id] == devs[id].Updated(bearer, pairing, paired, bonded')
              && (forall e <- g.devs :: e in devs && (e != id ==> g.devs[e] == devs[e]))
              && (forall e <- devs :: e in g.devs || !devs[e].Paired())
    {
      EvictedUnpaired(id);
    }

    /** Whatever happens to a device, the others stay as they are, and at most one of them is forgotten: the one that
        has not been cached for longest. */
    lemma OthersStay(id: Id, bearer: Bearer, pairing: bool, paired: bool, bonded': bool, other: Id)
      requires Inv() && id in devs && other in devs && other != id
      ensures var g := Updated(id, bearer, pairing, paired, bonded');
              && id in g.devs && g.devs[id] == devs[id].Updated(bearer, pairing, paired, bonded')
              && (other in g.devs ==> g.devs[other] == devs[other])
              && (other !in g.devs ==> cached.lru.Oldest(other) && |cached.list| == DEVICES_CACHE_MAX && !paired)
    {
      assert Placed(id) && Placed(other);
      cached.AddRefines(id);
    }
  }

  // ---------------------------------------------------------------- bond events

  /** Bond events never go straight between NONE and BONDED. */
  ghost predicate NeverSkips(events: seq<Bond>) {
    forall i :: 0 <= i < |events| - 1 ==> events[i] == BONDING || events[i + 1] == BONDING || events[i] == events[i + 1]
  }

  /** Nor does one repeat the one before. */
  ghost predicate Path(events: seq<Bond>) {
    forall i :: 0 <= i < |events| - 1 ==> (events[i] == BONDING) != (events[i + 1] == BONDING)
  }

  /** The events of update_bond_state. */
  function BondEvents(was: Bond, now: Bond): seq<Bond> {
    if was == now then []
    else if was != BONDING && now != BONDING then [BONDING, now]
    else [now]
  }

  /** Events that continue from the last one keep to a path and end at the new state. Events that continue from NONE
      after a BONDING repeat it, but skip nothing either. */
  lemma BondEventsPath(events: seq<Bond>, was: Bond, now: Bond)
    requires events != [] && NeverSkips(events)
    requires events[|events| - 1] == was || (was == NONE && events[|events| - 1] == BONDING)
    ensures var all := events + BondEvents(was, now);
            && NeverSkips(all)
            && (was != now || events[|events| - 1] == was ==> all[|all| - 1] == now)
            && (Path(events) && events[|events| - 1] == was ==> Path(all))
  {
  }

  /** The addresses of devices that `now` does not know any more and that were pairing. */
  ghost function Forgotten(was: map<Id, Device>, now: map<Id, Device>): set<nat> {
    set id | id in was && id !in now && was[id].pairing :: was[id].addr
  }

  /** The devices and what Android has been told: for every address that has been known NONE, and the bond events sent
      for it since. An address is lost from when its device is evicted while it is pairing until the next event for it
      is sent; `ever` are the addresses that have been lost. */
  datatype Record = Record(store: Store, events: map<nat, seq<Bond>>, lost: set<nat>, ever: set<nat>)
  {
    ghost predicate Heard(addr: nat, bond: Bond) {
      addr in events && events[addr] != [] && events[addr][|events[addr]| - 1] == bond
    }

    /** The last event for the address is `bond`, but BONDING for a lost one, and the events before skip nothing. */
    ghost predicate Traced(addr: nat, bond: Bond) {
      && Heard(addr, if addr in lost then BONDING else bond) && NeverSkips(events[addr])
      && (addr !in ever ==> Path(events[addr]))
      && (addr in lost ==> addr in ever && bond == NONE)
    }

    ghost predicate Told(id: Id) {
      id in store.devs ==> Traced(store.devs[id].addr, store.devs[id].BondState())
    }

    ghost predicate Known(addr: nat) {
      exists id :: id in store.devs && store.devs[id].addr == addr
    }

    ghost predicate Silent(addr: nat) {
      addr in events && !Known(addr) ==> Traced(addr, NONE)
    }

    ghost predicate Distinct(i: Id, j: Id) {
      i in store.devs && j in store.devs && i != j ==> store.devs[i].addr != store.devs[j].addr
    }

    ghost predicate Inv() {
      && store.Inv() && lost <= ever && lost <= events.Keys
      && (forall i, j {:trigger Distinct(i, j)} :: Distinct(i, j))
      && (forall id {:trigger Told(id)} :: Told(id))
      && (forall addr {:trigger Silent(addr)} :: Silent(addr))
    }

    ghost function After(next: Store): Record {
      var gone := Forgotten(store.devs, next.devs);
      Record(next, events, lost + gone, ever + gone)
    }

    /** cache_device for a known device, which evicts nobody */
    ghost function Cached(id: Id): Record {
      After(store.Cache(id))
    }

    /** get_device for an unknown address */
    ghost function Created(id: Id, addr: nat): Record {
      After(store.Created(id, addr)).(events := if addr in events then events else events[addr := [NONE]])
    }

    /** update_device_state */
    ghost function Updated(id: Id, bearer: Bearer, pairing: bool, paired: bool, bonded': bool): Record
      requires id in store.devs && store.devs[id].addr in events
    {
      var d := store.devs[id];
      var now := d.Updated(bearer, pairing, paired, bonded').BondState();
      var r := After(store.Updated(id, bearer, pairing, paired, bonded'));
      r.(events := events[d.addr := events[d.addr] + BondEvents(d.BondState(), now)],
         lost := r.lost - if d.BondState() == now then {} else {d.addr})
    }

    /** `now` differs in what happened to the device with the address `own`, and may have forgotten others. */
    ghost predicate Others(now: Record, own: nat, id: Id) {
      && id in now.store.devs && now.store.devs[id].addr == own
      && (forall e <- now.store.devs :: e != id ==> e in store.devs && now.store.devs[e] == store.devs[e])
      && (forall e <- store.devs :: e in now.store.devs || !store.devs[e].Paired())
      && (if id in store.devs then store.devs[id].addr == own else !Known(own))
      && (forall a :: a != own ==> (a in now.events <==> a in events))
      && (forall a :: a != own && a in events ==> now.events[a] == events[a])
      && (forall a :: a != own ==> (a in now.lost <==> a in lost || a in Forgotten(store.devs, now.store.devs)))
      && (forall a :: a != own ==> (a in now.ever <==> a in ever || a in Forgotten(store.devs, now.store.devs)))
    }

    /** An evicted device: its address is lost exactly when it was pairing or was lost before. */
    lemma Gone(now: Record, own: nat, id: Id, e: Id)
      requires Inv() && Others(now, own, id) && e in store.devs && e !in now.store.devs
      ensures var addr := store.devs[e].addr;
              && addr != own && !now.Known(addr) && now.Traced(addr, NONE)
              && (addr in now.lost <==> store.devs[e].pairing || addr in lost)
    {
      var addr := store.devs[e].addr;
      assert Told(e) && Distinct(e, id);
      assert addr != own;
      forall i | i in now.store.devs ensures now.store.devs[i].addr != addr {
        assert Distinct(i, e);
      }
      forall i | i in store.devs && store.devs[i].addr == addr ensures i == e {
        assert Distinct(i, e);
      }
      assert store.devs[e].pairing ==> addr in Forgotten(store.devs, now.store.devs);
    }

    lemma OthersSilent(now: Record, own: nat, id: Id, a: nat)
      requires Inv() && Others(now, own, id)
      ensures now.Silent(a)
    {
      if a in now.events && !now.Known(a) {
        assert a != own;
        if Known(a) {
          var e :| e in store.devs && store.devs[e].addr == a;
          assert e !in now.store.devs;
          Gone(now, own, id, e);
        } else {
          assert Silent(a);
        }
      }
    }

    lemma StillTold(now: Record, own: nat, id: Id, e: Id)
      requires Inv() && Others(now, own, id) && e in now.store.devs && e != id
      ensures now.Told(e)
    {
      var addr := store.devs[e].addr;
      assert Told(e) && Distinct(e, id);
      if id !in store.devs {
        assert addr != own;
      }
      forall i | i in store.devs && store.devs[i].addr == addr ensures i == e {
        assert Distinct(i, e);
      }
      assert addr !in Forgotten(store.devs, now.store.devs);
    }

    /** Whatever happens to one device, the others and their addresses are told of as before. */
    lemma OthersTold(now: Record, own: nat, id: Id)
      requires Inv() && now.store.Inv() && Others(now, own, id) && now.Told(id) && now.lost <= now.ever
      ensures now.Inv()
    {
      forall a | a in now.lost ensures a in now.events {
        if a in Forgotten(store.devs, now.store.devs) {
          var e :| e in store.devs && store.devs[e].addr == a;
          assert Told(e);
        }
      }
      forall i, j ensures now.Distinct(i, j) {
        assert Distinct(i, j) && Distinct(id, i) && Distinct(id, j);
      }
      forall e ensures now.Told(e) {
        if e in now.store.devs && e != id {
          StillTold(now, own, id, e);
        }
      }
      forall a ensures now.Silent(a) {
        OthersSilent(now, own, id, a);
      }
    }

    lemma CachedInv(id: Id)
      requires Inv() && id in store.devs && !store.devs[id].Paired()
      ensures Cached(id).Inv() && Cached(id).store.devs == store.devs && Cached(id).lost == lost
    {
      assert store.Placed(id);
      store.CacheInv(id);
      assert Told(id);
      assert Forgotten(store.devs, store.devs) == {};
      OthersTold(Cached(id), store.devs[id].addr, id);
    }

    lemma CreatedOthers(id: Id, addr: nat)
      requires Inv() && id !in store.devs && !Known(addr)
      ensures Others(Created(id, addr), addr, id) && addr !in Forgotten(store.devs, Created(id, addr).store.devs)
    {
      store.EvictedUnpaired(id);
    }

    lemma CreatedInv(id: Id, addr: nat)
      requires Inv() && id !in store.devs && !Known(addr)
      ensures Created(id, addr).Inv()
    {
      store.CreatedInv(id, addr);
      CreatedOthers(id, addr);
      assert Silent(addr) && Path([NONE]) && NeverSkips([NONE]);
      OthersTold(Created(id, addr), addr, id);
    }

    ghost predicate NewIn(id: Id, addr: nat, now: Record) {
      && id in now.store.devs && now.store.devs[id] == NewDevice(addr)
      && forall d <- now.store.devs :: d == id || (d in store.devs && now.store.devs[d] == store.devs[d])
    }

    /** `now` is what comes of finding the new device `id` while `last` is at the end of the cached list. */
    ghost predicate AfterFound(id: Id, addr: nat, last: Id, now: Record) {
      && NewIn(id, addr, now) && last in store.devs && last != id && events.Keys <= now.events.Keys
      && if |store.cached.list| < DEVICES_CACHE_MAX then
           now.store.cached.list == [id] + store.cached.list && last in now.store.devs && now.lost == lost
         else
           last !in now.store.devs && (store.devs[last].pairing ==> store.devs[last].addr in now.lost)
    }

    lemma NewlyLost(id: Id, addr: nat, last: Id)
      requires Inv() && id !in store.devs && !Known(addr)
      requires store.cached.list != [] && store.cached.list[|store.cached.list| - 1] == last
      ensures last in store.devs
      ensures if |store.cached.list| < DEVICES_CACHE_MAX then Created(id, addr).lost == lost
              else store.devs[last].pairing ==> store.devs[last].addr in Created(id, addr).lost
    {
      assert store.Placed(last) && store.Placed(id);
      var next := store.Created(id, addr);
      if |store.cached.list| < DEVICES_CACHE_MAX {
        assert store.devs.Keys <= next.devs.Keys;
        assert Forgotten(store.devs, next.devs) == {};
      } else {
        assert store.cached.Evicted(id) == Some(last) && last !in next.devs;
      }
    }

    /** Caching the new device once more loses nothing. */
    lemma FoundOnce(id: Id, addr: nat)
      requires Inv() && id !in store.devs && !Known(addr)
      ensures Created(id, addr).Cached(id).lost == Created(id, addr).lost
      ensures Created(id, addr).Cached(id).store.devs == Created(id, addr).store.devs
      ensures NewIn(id, addr, Created(id, addr).Cached(id))
    {
      CreatedInv(id, addr);
      Created(id, addr).CachedInv(id);
    }

    lemma FoundNew(id: Id, addr: nat, last: Id)
      requires Inv() && id !in store.devs && !Known(addr)
      requires store.cached.list != [] && store.cached.list[|store.cached.list| - 1] == last
      ensures AfterFound(id, addr, last, Created(id, addr).Cached(id))
    {
      store.FoundNew(id, addr);
      NewlyLost(id, addr, last);
      FoundOnce(id, addr);
    }

    lemma UpdatedOthers(id: Id, bearer: Bearer, pairing: bool, paired: bool, bonded': bool)
      requires Inv() && id in store.devs
      ensures store.devs[id].addr in events
      ensures Others(Updated(id, bearer, pairing, paired, bonded'), store.devs[id].addr, id)
      ensures store.devs[id].addr !in Forgotten(store.devs, store.Updated(id, bearer, pairing, paired, bonded').devs)
    {
      assert Told(id);
      store.UpdatedKeys(id, bearer, pairing, paired, bonded');
      assert store.Placed(id);
      store.devs[id].UpdatedFlags(bearer, pairing, paired, bonded');
      forall i | i in store.devs && store.devs[i].addr == store.devs[id].addr ensures i == id {
        assert Distinct(i, id);
      }
    }

    lemma UpdatedInv(id: Id, bearer: Bearer, pairing: bool, paired: bool, bonded': bool)
      requires Inv() && id in store.devs
      ensures store.devs[id].addr in events && Updated(id, bearer, pairing, paired, bonded').Inv()
    {
      var d := store.devs[id];
      assert Told(id);
      store.UpdatedInv(id, bearer, pairing, paired, bonded');
      store.UpdatedKeys(id, bearer, pairing, paired, bonded');
      UpdatedOthers(id, bearer, pairing, paired, bonded');
      BondEventsPath(events[d.addr], d.BondState(), d.Updated(bearer, pairing, paired, bonded').BondState());
      OthersTold(Updated(id, bearer, pairing, paired, bonded'), d.addr, id);
    }

    lemma UpdatedTold(id: Id, bearer: Bearer, pairing: bool, paired: bool, bonded': bool)
      requires Inv() && id in store.devs
      ensures store.devs[id].addr in events
      ensures var now := Updated(id, bearer, pairing, paired, bonded');
              && now.Inv() && id in now.store.devs && now.store.devs.Keys <= store.devs.Keys
              && now.store.devs[id] == store.devs[id].Updated(bearer, pairing, paired, bonded')
              && now.store.devs[id].addr == store.devs[id].addr
              && now.Traced(store.devs[id].addr, now.store.devs[id].BondState())
    {
      UpdatedInv(id, bearer, pairing, paired, bonded');
      UpdatedOthers(id, bearer, pairing, paired, bonded');
      store.UpdatedKeys(id, bearer, pairing, paired, bonded');
      assert Updated(id, bearer, pairing, paired, bonded').Told(id);
    }

    /** In terms of the flags and of what has been told: after an update the last event is BONDING exactly if a pairing
        is under way or the address is lost, BONDED exactly if none is and some bearer is paired, and NONE otherwise. */
    lemma LastEventAfter(id: Id, bearer: Bearer, pairing: bool, paired: bool, bonded': bool)
      requires Inv() && id in store.devs
      ensures store.devs[id].addr in events
      ensures var was, now := store.devs[id], Updated(id, bearer, pairing, paired, bonded');
              && (now.Heard(was.addr, BONDING) <==> pairing || was.addr in now.lost)
              && (now.Heard(was.addr, BONDED) <==> !pairing && was.PairedAfter(bearer, pairing, paired))
              && (now.Heard(was.addr, NONE)
                  <==> !pairing && !was.PairedAfter(bearer, pairing, paired) && was.addr !in now.lost)
    {
      UpdatedTold(id, bearer, pairing, paired, bonded');
      store.devs[id].PairedAfterUpdate(bearer, pairing, paired, bonded');
    }

    /** The last event for an address is the bond state of its device, or NONE if it has none, exactly unless the
        address is lost: then it is BONDING, and the state is NONE. */
    lemma LastEventIff(addr: nat, id: Id)
      requires Inv() && addr in events
      ensures id in store.devs && store.devs[id].addr == addr ==>
                (Heard(addr, store.devs[id].BondState()) <==> addr !in lost)
      ensures !Known(addr) ==> (Heard(addr, NONE) <==> addr !in lost)
      ensures addr in lost ==> Heard(addr, BONDING)
    {
      if Known(addr) {
        var e :| e in store.devs && store.devs[e].addr == addr;
        assert Told(e) && Told(id);
      } else {
        assert Silent(addr);
      }
    }

    /** An unknown device is cached into a full list: the address of the device that has to go is lost exactly if that
        device is pairing (or was lost before). */
    lemma EvictedByCreated(id: Id, addr: nat)
      requires Inv() && id !in store.devs && !Known(addr) && store.cached.Evicted(id).Some?
      ensures store.cached.Evicted(id).value in store.devs
      ensures var gone, now := store.devs[store.cached.Evicted(id).value], Created(id, addr);
              && !now.Known(gone.addr) && now.Heard(gone.addr, if gone.addr in now.lost then BONDING else NONE)
              && (gone.addr in now.lost <==> gone.pairing || gone.addr in lost)
    {
      store.EvictedUnpaired(id);
      CreatedOthers(id, addr);
      Gone(Created(id, addr), addr, id, store.cached.Evicted(id).value);
    }

    /** The last pairing of a bonded device is lost while the list is full: the same. */
    lemma EvictedByUpdated(id: Id, bearer: Bearer, pairing: bool, paired: bool, bonded': bool, e: Id)
      requires Inv() && id in store.devs && e in store.devs
      ensures store.devs[id].addr in events
      ensures var gone, now := store.devs[e], Updated(id, bearer, pairing, paired, bonded');
              e !in now.store.devs ==>
                && store.cached.Evicted(id) == Some(e) && store.devs[id].Paired()
                && !now.Known(gone.addr) && now.Heard(gone.addr, if gone.addr in now.lost then BONDING else NONE)
                && (gone.addr in now.lost <==> gone.pairing || gone.addr in lost)
    {
      UpdatedOthers(id, bearer, pairing, paired, bonded');
      assert store.Placed(id);
      if e !in Updated(id, bearer, pairing, paired, bonded').store.devs {
        Gone(Updated(id, bearer, pairing, paired, bonded'), store.devs[id].addr, id, e);
      }
    }

    /** The list is full and the bonded device loses its last pairing: then a device is evicted. */
    lemma DemotionEvicts(id: Id, bearer: Bearer, pairing: bool, bonded': bool)
      requires Inv() && id in store.devs && store.cached.Evicted(id).Some?
      requires store.devs[id].On(bearer).paired && !store.devs[id].On(if bearer == BREDR then LE else BREDR).paired
      requires !store.devs[id].Kept(bearer, pairing, false)
      ensures store.cached.Evicted(id).value in store.devs
      ensures store.cached.Evicted(id).value !in store.Updated(id, bearer, pairing, false, bonded').devs
    {
      store.EvictedUnpaired(id);
    }

    /** The address becomes known again: the device is new and not paired, and a lost address stays lost. */
    lemma KnownAgain(id: Id, addr: nat)
      requires Inv() && id !in store.devs && !Known(addr) && addr in events
      ensures var now := Created(id, addr);
              && id in now.store.devs && now.store.devs[id].BondState() == NONE
              && now.Heard(addr, if addr in lost then BONDING else NONE) && (addr in now.lost <==> addr in lost)
    {
      CreatedOthers(id, addr);
      assert Silent(addr);
    }

    /** The next event for a lost address sets it right. */
    lemma SetRight(id: Id, bearer: Bearer, pairing: bool, paired: bool, bonded': bool)
      requires Inv() && id in store.devs
      ensures store.devs[id].addr in events
      ensures var now := Updated(id, bearer, pairing, paired, bonded');
              && id in now.store.devs
              && (store.devs[id].addr in now.lost <==>
                    store.devs[id].addr in lost && now.store.devs[id].BondState() == NONE)
    {
      UpdatedOthers(id, bearer, pairing, paired, bonded');
      store.UpdatedKeys(id, bearer, pairing, paired, bonded');
      assert Told(id);
    }
  }

  datatype Op = Found(addr: nat)
              | Update(addr: nat, create: bool, bearer: Bearer, pairing: bool, paired: bool, bonded: bool)

  class Adapter {
    var devs: map<Id, Device>
    var bonded: seq<Id>
    var cached: seq<Id>
    var nextId: Id

    ghost var lru: Lru
    ghost var events: map<nat, seq<Bond>>
    ghost var lost: set<nat>
    ghost var ever: set<nat>

    ghost function Lists(): Store
      reads this`devs, this`bonded, this`cached, this`lru
    {
      Store(devs, bonded, Cached(cached, lru))
    }

    ghost function View(): Record
      reads this
    {
      Record(Lists(), events, lost, ever)
    }

    ghost predicate Valid()
      reads this
    {
      View().Inv() && forall id <- devs :: id < nextId
    }

    constructor ()
      ensures Valid() && devs == map[] && cached == [] && events == map[] && lost == {}
    {
      devs, bonded, cached, nextId := map[], [], [], 0;
      lru, events, lost, ever := Lru(map[], 0), map[], {}, {};
    }

    predicate Matches(id: Id, addr: nat)
      reads this`devs
    {
      id in devs && (devs[id].rpa == addr || devs[id].addr == addr)
    }

    /** `id` is the first device of the list that matches, None that no device does. */
    ghost predicate FirstIn(list: seq<Id>, addr: nat, found: Option<Id>)
      reads this`devs
    {
      match found
      case None => forall id <- list :: !Matches(id, addr)
      case Some(id) =>
        exists k :: 0 <= k < |list| && list[k] == id && Matches(id, addr)
                    && forall j :: 0 <= j < k ==> !Matches(list[j], addr)
    }

    /** g_slist_find_custom with device_match */
    method Search(list: seq<Id>, addr: nat) returns (found: Option<Id>)
      requires forall id <- list :: id in devs
      ensures FirstIn(list, addr, found)
    {
      for i := 0 to |list|
        invariant forall j :: 0 <= j < i ==> !Matches(list[j], addr)
      {
        if devs[list[i]].rpa == addr || devs[list[i]].addr == addr {
          return Some(list[i]);
        }
      }
      return None;
    }

    /** find_device: the first match among the bonded devices, then among the cached ones */
    method FindDevice(addr: nat) returns (found: Option<Id>)
      requires Valid()
      ensures FirstIn(bonded, addr, found) || (FirstIn(bonded, addr, None) && FirstIn(cached, addr, found))
      ensures found.None? ==> forall id :: !Matches(id, addr)
      ensures found.Some? ==> Matches(found.value, addr)
    {
      forall id | id in bonded || id in cached ensures id in devs {
        assert Lists().Placed(id);
      }
      found := Search(bonded, addr);
      if found.None? {
        found := Search(cached, addr);
      }
      forall id <- devs ensures id in bonded || id in cached {
        assert Lists().Placed(id);
      }
    }

    /** cache_device */
    method CacheDevice(id: Id)
      requires id !in bonded && Lists().cached.Ok()
      modifies this`cached, this`devs, this`lru
      ensures Lists() == old(Lists()).Cache(id)
    {
      if id in cached {
        cached := Remove(cached, id);
        lru := lru.(stamp := lru.stamp - {id});
      } else if |cached| >= DEVICES_CACHE_MAX {
        var gone := cached[|cached| - 1];
        cached := Remove(cached, gone);
        lru := lru.(stamp := lru.stamp - {gone});
        devs := devs - {gone};
      } else {
        RemoveAbsent(cached, id);
        assert lru.stamp - {id} == lru.stamp;
      }
      cached := [id] + cached;
      lru := Lru(lru.stamp[id := lru.clock], lru.clock + 1);
    }

    /** create_device and cache_device for an address that is not known */
    method CreateDevice(id: Id, addr: nat)
      requires View().Inv() && id !in devs && forall d <- devs :: devs[d].addr != addr
      modifies this`devs, this`cached, this`lru, this`events, this`lost, this`ever
      ensures View().Inv() && View() == old(View()).Created(id, addr)
    {
      View().CreatedInv(id, addr);
      assert Lists().Placed(id);
      CacheDevice(id);
      devs := devs[id := NewDevice(addr)];
      events := if addr in events then events else events[addr := [NONE]];
      ghost var gone := Forgotten(old(devs), devs);
      lost, ever := lost + gone, ever + gone;
    }

    /** get_device */
    method GetDevice(addr: nat) returns (id: Id)
      requires Valid()
      modifies this
      ensures Valid() && Matches(id, addr)
      ensures old(exists d :: Matches(d, addr)) ==> View() == old(View())
      ensures !old(exists d :: Matches(d, addr)) ==> id !in old(devs) && View() == old(View()).Created(id, addr)
    {
      var found := FindDevice(addr);
      if found.Some? {
        return found.value;
      }
      assert forall d <- devs :: !Matches(d, addr);
      id := nextId;
      nextId := nextId + 1;
      CreateDevice(id, addr);
    }

    /** The part of update_bredr_state and update_le_state that moves the device between the lists. */
    method Relist(id: Id, bearer: Bearer, paired: bool, otherPaired: bool, wasPaired: bool)
      requires Lists().Inv() && id in devs
      requires wasPaired == devs[id].On(bearer).paired
      requires otherPaired == devs[id].On(if bearer == BREDR then LE else BREDR).paired
      modifies this`devs, this`bonded, this`cached, this`lru
      ensures Lists() == old(Lists()).Relisted(id, bearer, paired)
    {
      assert Lists().Placed(id);
      if paired && !otherPaired && !wasPaired {
        cached := Remove(cached, id);
        lru := lru.(stamp := lru.stamp - {id});
        bonded := [id] + bonded;
      } else if !paired && !otherPaired {
        RemoveSpec(bonded, id);
        bonded := Remove(bonded, id);
        CacheDevice(id);
      }
    }

    /** update_bredr_state */
    method UpdateBredrState(id: Id, pairing: bool, paired: bool, bonded': bool)
      requires Lists().Inv() && id in devs
      modifies this`devs, this`bonded, this`cached, this`lru
      ensures Lists().Inv() && Lists() == old(Lists()).Updated(id, BREDR, pairing, paired, bonded')
    {
      Lists().UpdatedInv(id, BREDR, pairing, paired, bonded');
      var d := devs[id];
      if pairing == d.pairing && paired == d.bredr.paired && bonded' == d.bredr.bonded {
        assert devs[id := d] == devs;
        return;
      }
      if !(pairing && d.bredr.paired) && !(!pairing && !paired && d.pairing && d.bredr.paired) {
        Relist(id, BREDR, paired, d.le.paired, d.bredr.paired);
        d := d.(bredr := Flags(paired, if paired then d.bredr.bonded || bonded' else false));
      }
      devs := devs[id := d.(pairing := pairing)];
    }

    /** update_le_state */
    method UpdateLeState(id: Id, pairing: bool, paired: bool, bonded': bool)
      requires Lists().Inv() && id in devs
      modifies this`devs, this`bonded, this`cached, this`lru
      ensures Lists().Inv() && Lists() == old(Lists()).Updated(id, LE, pairing, paired, bonded')
    {
      Lists().UpdatedInv(id, LE, pairing, paired, bonded');
      var d := devs[id];
      if pairing == d.pairing && paired == d.le.paired && bonded' == d.le.bonded {
        assert devs[id := d] == devs;
        return;
      }
      if !(pairing && d.le.paired) && !(!pairing && !paired && d.pairing && d.le.paired) {
        Relist(id, LE, paired, d.bredr.paired, d.le.paired);
        if !paired && !d.bredr.paired {
          d := d.(csrk := false);
        }
        d := d.(le := Flags(paired, if paired then d.le.bonded || bonded' else false));
      }
      devs := devs[id := d.(pairing := pairing)];
    }

    /** update_bond_state: between NONE and BONDED goes a BONDING. `gone` are the addresses that have just been lost. */
    method UpdateBondState(addr: nat, was: Bond, now: Bond, ghost gone: set<nat>)
      requires addr in events
      modifies this`events, this`lost, this`ever
      ensures events == old(events)[addr := old(events)[addr] + BondEvents(was, now)]
      ensures lost == old(lost) + gone - (if was == now then {} else {addr}) && ever == old(ever) + gone
    {
      lost, ever := lost + gone, ever + gone;
      if was == now {
        assert events[addr] + [] == events[addr];
        return;
      }
      if (was == NONE && now == BONDED) || (was == BONDED && now == NONE) {
        events := events[addr := events[addr] + [BONDING]];
      }
      events := events[addr := events[addr] + [now]];
      lost := lost - {addr};
      assert old(events)[addr] + [BONDING] + [now] == old(events)[addr] + [BONDING, now];
    }

    /** update_bredr_state or update_le_state, by the type of the address */
    method UpdateState(id: Id, bearer: Bearer, pairing: bool, paired: bool, bonded': bool)
      requires Lists().Inv() && id in devs
      modifies this`devs, this`bonded, this`cached, this`lru
      ensures Lists() == old(Lists()).Updated(id, bearer, pairing, paired, bonded')
    {
      if bearer == BREDR {
        UpdateBredrState(id, pairing, paired, bonded');
      } else {
        UpdateLeState(id, pairing, paired, bonded');
      }
    }

    /** update_device_state */
    method UpdateDeviceState(id: Id, bearer: Bearer, pairing: bool, paired: bool, bonded': bool)
      requires Valid() && id in devs
      modifies this
      ensures Valid() && id in devs && devs[id].addr == old(devs[id]).addr && devs[id].addr in old(events)
      ensures View() == old(View()).Updated(id, bearer, pairing, paired, bonded')
      ensures var was, addr := old(devs[id]), devs[id].addr;
              && (View().Heard(addr, BONDING) <==> pairing || addr in lost)
              && (View().Heard(addr, BONDED) <==> !pairing && was.PairedAfter(bearer, pairing, paired))
              && (View().Heard(addr, NONE)
                  <==> !pairing && !was.PairedAfter(bearer, pairing, paired) && addr !in lost)
    {
      View().UpdatedTold(id, bearer, pairing, paired, bonded');
      View().LastEventAfter(id, bearer, pairing, paired, bonded');
      var was := devs[id].BondState();
      UpdateState(id, bearer, pairing, paired, bonded');
      UpdateBondState(devs[id].addr, was, devs[id].BondState(), Forgotten(old(devs), devs));
    }

    /** cache_device for a known device that is not paired */
    method CacheKnown(id: Id)
      requires Valid() && id in devs && !devs[id].Paired()
      modifies this
      ensures Valid() && View() == old(View()).Cached(id) && id in devs && devs[id] == old(devs[id])
    {
      View().CachedInv(id);
      Lists().CacheInv(id);
      assert Lists().Placed(id);
      CacheDevice(id);
      ghost var gone := Forgotten(old(devs), devs);
      lost, ever := lost + gone, ever + gone;
    }

    /** The caching in update_found_device */
    method FoundDevice(addr: nat) returns (id: Id)
      requires Valid()
      modifies this
      ensures Valid() && Matches(id, addr)
      ensures !devs[id].Paired() ==> cached != [] && cached[0] == id
      ensures !old(exists d :: Matches(d, addr)) ==>
                id !in old(devs) && View() == old(View()).Created(id, addr).Cached(id)
    {
      id := GetDevice(addr);
      if !devs[id].bredr.paired && !devs[id].le.paired {
        CacheKnown(id);
      }
    }

    /** A device that is not known is found, while `last` is at the end of the cached list. */
    method FindNew(addr: nat, ghost last: Id) returns (id: Id)
      requires Valid() && (forall d :: !Matches(d, addr)) && cached != [] && cached[|cached| - 1] == last
      modifies this
      ensures Valid() && id !in old(devs) && old(View()).AfterFound(id, addr, last, View())
    {
      forall d <- devs ensures devs[d].addr != addr {
        assert !Matches(d, addr);
      }
      id := FoundDevice(addr);
      old(View()).FoundNew(id, addr, last);
    }

    /** Pairing with the first device to become known starts. */
    method StartPairing(addr: nat) returns (id: Id)
      requires Valid() && devs == map[]
      modifies this
      ensures Valid() && devs == map[id := NewDevice(addr).(pairing := true)] && cached == [id]
      ensures addr in events
    {
      assert forall d :: !Matches(d, addr);
      forall d ensures d !in bonded && d !in cached {
        assert Lists().Placed(d);
      }
      id := GetDevice(addr);
      Lists().FirstPairing(id, addr);
      UpdateDeviceState(id, BREDR, true, false, false);
    }

    /** The first device is pairing, and `others` have been found since. */
    ghost predicate Crowded(first: Id, addr: nat, others: seq<nat>)
      reads this
    {
      && |cached| == |others| + 1 && cached[|others|] == first && first in devs && addr in events
      && devs[first] == NewDevice(addr).(pairing := true)
      && forall d <- devs :: devs[d].rpa == 0 && (d == first || devs[d].addr in others)
    }

    method FindOneMore(ghost first: Id, ghost addr: nat, next: nat, ghost others: seq<nat>)
      requires Valid() && Crowded(first, addr, others) && |others| < DEVICES_CACHE_MAX - 1
      requires next !in others && next != addr && next != 0
      modifies this
      ensures Valid() && Crowded(first, addr, others + [next])
    {
      assert forall d :: !Matches(d, next);
      var id := FindNew(next, first);
    }

    /** 299 more devices are found: the list is full. */
    method FillUp(ghost first: Id, ghost addr: nat, others: seq<nat>)
      requires Valid() && Crowded(first, addr, [])
      requires addr != 0 && |others| == DEVICES_CACHE_MAX - 1 && NoDup(others) && addr !in others && 0 !in others
      modifies this
      ensures Valid() && Crowded(first, addr, others)
    {
      for k := 0 to |others|
        invariant Valid() && Crowded(first, addr, others[..k])
      {
        assert others[k] !in others[..k] && others[k] in others;
        FindOneMore(first, addr, others[k], others[..k]);
        assert others[..k + 1] == others[..k] + [others[k]];
      }
      assert others[..|others|] == others;
    }

    /** Pairing with an unknown device starts, and 300 other devices are found before it ends: the device is forgotten,
        and Android is left with BONDING for its address. */
    method LoseAddress(addr: nat, others: seq<nat>)
      requires Valid() && devs == map[]
      requires addr != 0 && |others| == DEVICES_CACHE_MAX && NoDup(others) && addr !in others && 0 !in others
      modifies this
      ensures Valid() && addr in lost && !View().Known(addr) && View().Heard(addr, BONDING)
    {
      var first := StartPairing(addr);
      var last, found := others[DEVICES_CACHE_MAX - 1], others[..DEVICES_CACHE_MAX - 1];
      assert last in others && last !in found;
      FillUp(first, addr, found);
      assert forall d :: !Matches(d, last);
      var id := FindNew(last, first);
      View().LastEventIff(addr, first);
    }

    /** Any run of scan results and pairing events. The handlers of pairing events look a device up by its address;
        `create` says whether they make an unknown one known (get_device) or ignore it (find_device). */
    method Run(ops: seq<Op>)
      requires Valid()
      modifies this
      ensures Valid()
    {
      for i := 0 to |ops|
        invariant Valid()
      {
        match ops[i]
        case Found(addr) =>
          var _ := FoundDevice(addr);
        case Update(addr, create, bearer, pairing, paired, bonded') =>
          var found := FindDevice(addr);
          if found.None? && create {
            var id := GetDevice(addr);
            found := Some(id);
          }
          if found.Some? {
            UpdateDeviceState(found.value, bearer, pairing, paired, bonded');
          }
      }
    }
  }
}
