/**
 NAT2.5 address database, seen as a plain map.

 The bridge extension records, for every network address it has heard, the
 MAC address behind it, a use count and the time it was last refreshed. This
 module states what each operation does to that map, and what a whole run of
 operations does. The hash table with its linked chains is in Nat25Table.
 */
module Nat25Spec {

  type Octet = bv8

  const NAT25_HASH_SIZE: nat := 16
  const MAX_NETWORK_ADDR_LEN: nat := 17

  /** A network address: one type octet and sixteen address octets. */
  type NetAddr = k: seq<Octet> | |k| == MAX_NETWORK_ADDR_LEN witness seq(17, _ => 0)
  type MacAddr = m: seq<Octet> | |m| == 6 witness seq(6, _ => 0)
  type Ipv4 = a: seq<Octet> | |a| == 4 witness seq(4, _ => 0)

  const NAT25_IPV4: Octet := 1
  const NAT25_IPV6: Octet := 2
  const NAT25_PPPOE: Octet := 5

  /** The key under which an IPv4 host is recorded. */
  function Ipv4Key(ip: Ipv4): (k: NetAddr) {
    [NAT25_IPV4, 0, 0, 0, 0, 0, 0] + ip + [0, 0, 0, 0, 0, 0]
  }

  /** Exclusive or of the octets k[lo..hi]. */
  function XorOf(k: NetAddr, lo: nat, hi: nat): Octet
    requires lo <= hi <= MAX_NETWORK_ADDR_LEN
    decreases hi - lo
  {
    if lo == hi then 0 else k[lo] ^ XorOf(k, lo + 1, hi)
  }

  type Slot = i: nat | i < NAT25_HASH_SIZE

  function LowNibble(b: Octet): Slot
  {
    var n := b & 15;
    assert n <= 15;
    n as nat
  }

  /** The bucket of a key, as computed for kernels from 5.15 on. */
  function Hash(k: NetAddr): Slot {
    LowNibble(
      if k[0] == NAT25_IPV4 then XorOf(k, 7, 11)
      else if k[0] == NAT25_PPPOE then XorOf(k, 0, 9)
      else if k[0] == NAT25_IPV6 then XorOf(k, 1, 17)
      else XorOf(k, 0, 17))
  }

  // ---------------------------------------------------------------- time

  /** Timer interrupts per second (a kernel build choice). */
  const HZ: nat := 250
  const AGEING_TICKS: nat := 300 * HZ
  /** `unsigned long` and `atomic_t` on a 32-bit kernel wrap here. */
  const WORD: nat := 0x1_0000_0000

  /** The tick counter as the driver reads it at absolute time `now`. */
  function Jiffies(now: nat): (j: nat)
    ensures j < WORD
  {
    now % WORD
  }

  /** time_before_eq(stamp, jiffies - AGEING_TICKS): the sign of a wrapped difference. */
  predicate HasExpired(stamp: nat, now: nat)
  {
    (Jiffies(now) - AGEING_TICKS - stamp) % WORD < WORD / 2
  }

  /** The wrapped comparison agrees with real elapsed time for half a wrap after expiry. */
  lemma HasExpiredIsElapsedTime(stamped: nat, now: nat)
    requires stamped <= now < stamped + AGEING_TICKS + WORD / 2
    ensures HasExpired(Jiffies(stamped), now) <==> now - stamped >= AGEING_TICKS
  {
  }

  /** The ageing time is five minutes. */
  lemma ExpiresAfterFiveMinutes(stamped: nat, now: nat)
    requires stamped <= now < stamped + AGEING_TICKS + WORD / 2
    ensures HasExpired(Jiffies(stamped), now) <==> now - stamped >= 5 * 60 * HZ
  {
    HasExpiredIsElapsedTime(stamped, now);
  }

  lemma ModShift(d: int, q: int)
    ensures (d + q * WORD) % WORD == d % WORD
  {
  }

  // ---------------------------------------------------------- operations

  /** What the database knows about one network address. */
  datatype Info = Info(mac: MacAddr, uses: nat, stamp: nat)

  type Db = map<NetAddr, Info>

  /** atomic_inc and atomic_dec. */
  function Up(uses: nat): nat {
    if uses >= WORD - 1 then 0 else uses + 1
  }

  function Down(uses: nat): nat {
    if uses == 0 then WORD - 1 else uses - 1
  }

  /** __nat25_db_network_insert, where `room` says whether the allocation succeeds. */
  function Inserted(db: Db, key: NetAddr, mac: MacAddr, now: nat, room: bool): Db {
    if key in db then db[key := db[key].(mac := mac, stamp := Jiffies(now))]
    else if room then db[key := Info(mac, 1, Jiffies(now))]
    else db
  }

  /** __nat25_db_network_lookup_and_replace: only a live entry is counted as used. */
  function LookedUp(db: Db, key: NetAddr, now: nat): Db {
    if key in db && !HasExpired(db[key].stamp, now)
    then db[key := db[key].(uses := Up(db[key].uses))]
    else db
  }

  /** So a live entry gains one use modulo 2^32, and nothing else changes. */
  lemma LookupCounts(db: Db, key: NetAddr, now: nat)
    ensures key in db && !HasExpired(db[key].stamp, now) && db[key].uses < WORD ==>
              LookedUp(db, key, now) == db[key := db[key].(uses := (db[key].uses + 1) % WORD)]
    ensures key !in db || HasExpired(db[key].stamp, now) ==> LookedUp(db, key, now) == db
  {
  }

  /** An expired entry loses one use per pass. */
  function Aged(i: Info, now: nat): Info {
    if HasExpired(i.stamp, now) then i.(uses := Down(i.uses)) else i
  }

  /** The pass that brings the use count to zero frees the entry. */
  predicate Freed(i: Info, now: nat) {
    HasExpired(i.stamp, now) && Down(i.uses) == 0
  }

  /** An expire pass that has reached only the keys of `part`. */
  ghost function ExpiredOn(db: Db, now: nat, part: set<NetAddr>): (r: Db)
    ensures forall k :: k in r <==> k in db && !(k in part && Freed(db[k], now))
    ensures forall k :: k in r ==> r[k] == if k in part then Aged(db[k], now) else db[k]
  {
    map k | k in db && !(k in part && Freed(db[k], now))
      :: if k in part then Aged(db[k], now) else db[k]
  }

  /** nat25_db_expire. */
  ghost function Expired(db: Db, now: nat): Db {
    ExpiredOn(db, now, db.Keys)
  }

  /** The shortcut path of the transmitter refreshes the cached entry's timer. */
  function Touched(db: Db, key: NetAddr, now: nat): Db {
    if key in db then db[key := db[key].(stamp := Jiffies(now))] else db
  }

  // ---------------------------------------------------------------- runs

  datatype Op =
    | Insert(key: NetAddr, mac: MacAddr, room: bool)
    | Lookup(key: NetAddr)
    | Touch(key: NetAddr)
    | Skip
    | Expire
    | Cleanup

  datatype Timed = Timed(op: Op, now: nat)

  ghost function Apply(db: Db, t: Timed): Db {
    match t.op
    case Insert(key, mac, room) => Inserted(db, key, mac, t.now, room)
    case Lookup(key) => LookedUp(db, key, t.now)
    case Touch(key) => Touched(db, key, t.now)
    case Skip => db
    case Expire => Expired(db, t.now)
    case Cleanup => map[]
  }

  ghost function Run(db: Db, ops: seq<Timed>): Db
    decreases |ops|
  {
    if ops == [] then db else Run(Apply(db, ops[0]), ops[1..])
  }

  lemma {:induction false} RunOneMore(db: Db, ops: seq<Timed>, t: Timed)
    ensures Run(db, ops + [t]) == Apply(Run(db, ops), t)
    decreases |ops|
  {
    if ops == [] {
      assert [t][1..] == [];
    } else {
      assert (ops + [t])[1..] == ops[1..] + [t];
      RunOneMore(Apply(db, ops[0]), ops[1..], t);
    }
  }

  /** Number of expire passes in a run. */
  function Passes(ops: seq<Timed>): (n: nat)
    ensures n <= |ops|
  {
    if ops == [] then 0 else (if ops[0].op.Expire? then 1 else 0) + Passes(ops[1..])
  }

  /** Expire passes an expired entry survives; a count that wrapped to 0 takes a full cycle. */
  function PassesToFree(uses: nat): (n: nat)
    ensures n > 0
  {
    if uses == 0 then WORD else uses
  }

  predicate LeavesAlone(ops: seq<Timed>, key: NetAddr) {
    forall t :: t in ops ==>
      !t.op.Cleanup? && !(t.op.Insert? && t.op.key == key) && !(t.op.Touch? && t.op.key == key)
  }

  /** What one operation does to an expired entry it leaves alone. */
  lemma AgeStep(db: Db, key: NetAddr, stamped: nat, t: Timed)
    requires key in db && db[key].uses < WORD && db[key].stamp == Jiffies(stamped) && LeavesAlone([t], key)
    requires stamped + AGEING_TICKS <= t.now < stamped + AGEING_TICKS + WORD / 2
    ensures var r, u := Apply(db, t), db[key].uses;
            if !t.op.Expire? then key in r && r[key] == db[key]
            else if PassesToFree(u) == 1 then key !in r
            else key in r && r[key] == db[key].(uses := Down(u))
  {
    HasExpiredIsElapsedTime(stamped, t.now);
    assert t in [t];
  }

  /** Counting one pass less. */
  lemma OnePassLess(u: nat, n: nat)
    requires u < WORD && PassesToFree(u) != 1
    ensures var v := Down(u);
            PassesToFree(v) == PassesToFree(u) - 1 && (v - n) % WORD == (u - (n + 1)) % WORD
  {
    ModShift(0 - (n + 1), 1);
  }

  /**
   Ageing: an entry last refreshed at `stamped` and already expired, that is neither inserted
   again nor refreshed nor swept by a cleanup, is in the database exactly until
   as many expire passes have run as its use count says. Lookups in between do not prolong it.
   */
  lemma {:induction false} AgeingIsExact(db: Db, key: NetAddr, stamped: nat, ops: seq<Timed>)
    requires key in db && db[key].uses < WORD && db[key].stamp == Jiffies(stamped)
    requires LeavesAlone(ops, key)
    requires forall t :: t in ops ==> stamped + AGEING_TICKS <= t.now < stamped + AGEING_TICKS + WORD / 2
    ensures key in Run(db, ops) <==> Passes(ops) < PassesToFree(db[key].uses)
    ensures key in Run(db, ops) ==>
              Run(db, ops)[key] == db[key].(uses := (db[key].uses - Passes(ops)) % WORD)
    decreases |ops|
  {
    if ops != [] {
      var t, rest := ops[0], ops[1..];
      assert t in ops && forall x :: x in rest ==> x in ops;
      AgeStep(db, key, stamped, t);
      var r := Apply(db, t);
      if key in r {
        AgeingIsExact(r, key, stamped, rest);
        if t.op.Expire? {
          OnePassLess(db[key].uses, Passes(rest));
        }
      } else {
        AbsentStaysAbsent(r, key, rest);
      }
    }
  }

  /** Without an insert, nothing brings a freed key back. */
  lemma {:induction false} AbsentStaysAbsent(db: Db, key: NetAddr, ops: seq<Timed>)
    requires key !in db && LeavesAlone(ops, key)
    ensures key !in Run(db, ops)
    decreases |ops|
  {
    if ops != [] {
      assert ops[0] in ops;
      AbsentStaysAbsent(Apply(db, ops[0]), key, ops[1..]);
    }
  }

  // --------------------------------------------------------------- calls

  /** A call into the database, with the time it is made. */
  datatype Call =
    | DoInsert(key: NetAddr, mac: MacAddr, room: bool, now: nat)
    | DoLookup(key: NetAddr, dest: MacAddr, now: nat)
    | DoScdb(source: MacAddr, ip: Ipv4, now: nat)
    | DoExpire(now: nat)
    | DoCleanup(now: nat)

  const NO_MAC: MacAddr := [0, 0, 0, 0, 0, 0]

  /** The key of the entry the transmitter's short cut points at. */
  datatype Cached = Nothing | Cached(key: NetAddr)

  /** The database with its short cut. */
  datatype Bridge = Bridge(db: Db, mac: MacAddr, cached: Cached)

  /** The short cut after a frame from `source`: a new source is looked up, a stale one forgotten. */
  function Aimed(b: Bridge, source: MacAddr, ip: Ipv4): Bridge {
    if b.mac == source then (if b.cached.Nothing? then b.(mac := NO_MAC) else b)
    else if Ipv4Key(ip) in b.db then b.(mac := source, cached := Cached(Ipv4Key(ip)))
    else b.(cached := Nothing)
  }

  /** The map operation a call performs. */
  function OpOf(b: Bridge, c: Call): Timed {
    Timed(match c
          case DoInsert(key, mac, room, _) => Insert(key, mac, room)
          case DoLookup(key, _, _) => Lookup(key)
          case DoScdb(source, ip, _) =>
            var a := Aimed(b, source, ip);
            if a.cached.Nothing? then Skip else Touch(a.cached.key)
          case DoExpire(_) => Expire
          case DoCleanup(_) => Cleanup,
          c.now)
  }

  /** The new contents; a short cut to an entry that is gone is forgotten. */
  function Filled(b: Bridge, db: Db): Bridge {
    if b.cached.Cached? && b.cached.key !in db then Bridge(db, NO_MAC, Nothing) else b.(db := db)
  }

  ghost function After(b: Bridge, c: Call): Bridge {
    Filled(if c.DoScdb? then Aimed(b, c.source, c.ip) else b, Apply(b.db, OpOf(b, c)))
  }

  ghost function AfterAll(b: Bridge, calls: seq<Call>): Bridge
    decreases |calls|
  {
    if calls == [] then b else AfterAll(After(b, calls[0]), calls[1..])
  }

  ghost function OpsOf(b: Bridge, calls: seq<Call>): seq<Timed>
    decreases |calls|
  {
    if calls == [] then [] else [OpOf(b, calls[0])] + OpsOf(After(b, calls[0]), calls[1..])
  }

  lemma {:induction false} CallsRun(b: Bridge, calls: seq<Call>)
    ensures AfterAll(b, calls).db == Run(b.db, OpsOf(b, calls)) && |OpsOf(b, calls)| == |calls|
    decreases |calls|
  {
    if calls != [] {
      CallsRun(After(b, calls[0]), calls[1..]);
      assert OpsOf(b, calls)[1..] == OpsOf(After(b, calls[0]), calls[1..]);
    }
  }

  lemma {:induction false} AfterOneMore(b: Bridge, calls: seq<Call>, c: Call)
    ensures AfterAll(b, calls + [c]) == After(AfterAll(b, calls), c)
    decreases |calls|
  {
    if calls == [] {
      assert [c][1..] == [];
    } else {
      assert (calls + [c])[1..] == calls[1..] + [c];
      AfterOneMore(After(b, calls[0]), calls[1..], c);
    }
  }

  /** No call inserts the key, sweeps everything or comes from the host with the key's address. */
  predicate Spares(calls: seq<Call>, key: NetAddr) {
    forall c :: c in calls ==>
      !c.DoCleanup? && !(c.DoInsert? && c.key == key) && !(c.DoScdb? && Ipv4Key(c.ip) == key)
  }

  function ExpireCalls(calls: seq<Call>): nat
    decreases |calls|
  {
    if calls == [] then 0 else (if calls[0].DoExpire? then 1 else 0) + ExpireCalls(calls[1..])
  }

  lemma SparedOne(b: Bridge, c: Call, key: NetAddr)
    requires Spares([c], key) && b.cached != Cached(key)
    ensures After(b, c).cached != Cached(key) && OpOf(b, c).now == c.now
    ensures var op := OpOf(b, c).op;
            && !op.Cleanup? && !(op.Insert? && op.key == key) && !(op.Touch? && op.key == key)
            && (op.Expire? <==> c.DoExpire?)
  {
    assert c in [c];
  }

  lemma {:induction false} SparedIsLeftAlone(b: Bridge, calls: seq<Call>, key: NetAddr)
    requires Spares(calls, key) && b.cached != Cached(key)
    ensures var ops := OpsOf(b, calls);
            && LeavesAlone(ops, key) && Passes(ops) == ExpireCalls(calls)
            && |ops| == |calls| && forall i :: 0 <= i < |ops| ==> ops[i].now == calls[i].now
    decreases |calls|
  {
    if calls != [] {
      var c, rest := calls[0], calls[1..];
      assert c in calls && forall x :: x in rest ==> x in calls;
      SparedOne(b, c, key);
      SparedIsLeftAlone(After(b, c), rest, key);
      var ops := OpsOf(After(b, c), rest);
      assert ([OpOf(b, c)] + ops)[1..] == ops;
    }
  }

  /**
   Ageing in terms of calls: an expired entry that the short cut does not point at and that no call
   re-inserts, refreshes or sweeps is freed by exactly the expire call its use count says, whatever
   other calls there are in between.
   */
  lemma AgeingOfCalls(b: Bridge, key: NetAddr, stamped: nat, calls: seq<Call>)
    requires key in b.db && b.db[key].uses < WORD && b.db[key].stamp == Jiffies(stamped)
    requires Spares(calls, key) && b.cached != Cached(key)
    requires forall c :: c in calls ==> stamped + AGEING_TICKS <= c.now < stamped + AGEING_TICKS + WORD / 2
    ensures key in AfterAll(b, calls).db <==> ExpireCalls(calls) < PassesToFree(b.db[key].uses)
  {
    CallsRun(b, calls);
    SparedIsLeftAlone(b, calls, key);
    assert forall i :: 0 <= i < |calls| ==> calls[i] in calls;
    AgeingIsExact(b.db, key, stamped, OpsOf(b, calls));
  }

  /** One more processed key changes exactly that key. */
  lemma ExpiredOnStep(db: Db, now: nat, part: set<NetAddr>, k: NetAddr)
    requires k in db && k !in part
    ensures ExpiredOn(db, now, part + {k}) ==
            if Freed(db[k], now) then ExpiredOn(db, now, part) - {k}
            else ExpiredOn(db, now, part)[k := Aged(db[k], now)]
  {
  }

  /** A lookup never changes who is behind an address, and an insert changes one address only. */
  lemma InsertThenLookup(db: Db, key: NetAddr, other: NetAddr, mac: MacAddr, now: nat, later: nat)
    requires now <= later < now + AGEING_TICKS
    ensures var db' := LookedUp(Inserted(db, key, mac, now, true), key, later);
            && key in db' && db'[key].mac == mac
            && !HasExpired(db'[key].stamp, later)
            && (other != key ==> (other in db' <==> other in db) && (other in db ==> db'[other] == db[other]))
  {
    HasExpiredIsElapsedTime(now, later);
  }
}
