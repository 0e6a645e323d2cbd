/**
 Lives of entries of the NAT2.5 database: what a run of operations makes of one
 address from the moment it is first heard, counted in lookups and expire
 passes, and whose entry the transmitter's short cut keeps alive.
 */
module Nat25Runs {

  import opened Nat25Spec

  // --------------------------------------------------------------- lives

  /** How often an address is looked up in a run. */
  function Lookups(ops: seq<Timed>, key: NetAddr): (n: nat)
    ensures n <= |ops|
  {
    if ops == [] then 0 else (if ops[0].op == Lookup(key) then 1 else 0) + Lookups(ops[1..], key)
  }

  /** The times of a run lie in the ageing time of an entry refreshed at `stamped`, or behind it. */
  predicate During(ops: seq<Timed>, stamped: nat) {
    forall t :: t in ops ==> stamped <= t.now < stamped + AGEING_TICKS
  }

  predicate Behind(ops: seq<Timed>, stamped: nat) {
    forall t :: t in ops ==> stamped + AGEING_TICKS <= t.now < stamped + AGEING_TICKS + WORD / 2
  }

  lemma LiveStep(db: Db, key: NetAddr, stamped: nat, t: Timed)
    requires key in db && db[key].uses < WORD && db[key].stamp == Jiffies(stamped)
    requires LeavesAlone([t], key) && During([t], stamped)
    ensures key in Apply(db, t)
    ensures Apply(db, t)[key] == db[key].(uses := (db[key].uses + Lookups([t], key)) % WORD)
  {
    assert t in [t] && [t][1..] == [];
    HasExpiredIsElapsedTime(stamped, t.now);
  }

  lemma AddModulo(u: nat, a: nat, b: nat)
    ensures ((u + a) % WORD + b) % WORD == (u + (a + b)) % WORD
  {
    assert u + a == WORD * ((u + a) / WORD) + (u + a) % WORD;
    ModShift((u + a) % WORD + b, (u + a) / WORD);
  }

  lemma LiveParts(ops: seq<Timed>, key: NetAddr, stamped: nat)
    requires ops != [] && LeavesAlone(ops, key) && During(ops, stamped)
    ensures LeavesAlone([ops[0]], key) && During([ops[0]], stamped)
    ensures LeavesAlone(ops[1..], key) && During(ops[1..], stamped)
    ensures Lookups(ops, key) == Lookups([ops[0]], key) + Lookups(ops[1..], key)
  {
    assert ops[0] in ops && forall x :: x in ops[1..] ==> x in ops;
    assert [ops[0]][1..] == [];
  }

  /** While it is live, an entry gains one use per lookup of it, and nothing else happens to it. */
  lemma {:induction false} LiveRun(db: Db, key: NetAddr, stamped: nat, ops: seq<Timed>)
    requires key in db && db[key].uses < WORD && db[key].stamp == Jiffies(stamped)
    requires LeavesAlone(ops, key) && During(ops, stamped)
    ensures key in Run(db, ops)
    ensures Run(db, ops)[key] == db[key].(uses := (db[key].uses + Lookups(ops, key)) % WORD)
    decreases |ops|
  {
    if ops != [] {
      var t, rest := ops[0], ops[1..];
      LiveParts(ops, key, stamped);
      LiveStep(db, key, stamped, t);
      LiveRun(Apply(db, t), key, stamped, rest);
      AddModulo(db[key].uses, Lookups([t], key), Lookups(rest, key));
    }
  }

  lemma RunOne(db: Db, t: Timed)
    ensures Run(db, [t]) == Apply(db, t)
  {
    RunOneMore(db, [], t);
    assert [] + [t] == [t];
  }

  lemma {:induction false} RunOn(db: Db, ops: seq<Timed>, more: seq<Timed>)
    ensures Run(db, ops + more) == Run(Run(db, ops), more)
    decreases |ops|
  {
    if ops == [] {
      assert ops + more == more;
    } else {
      assert (ops + more)[1..] == ops[1..] + more;
      RunOn(Apply(db, ops[0]), ops[1..], more);
    }
  }

  /**
   The life of an address: inserted anew, looked up n times while live and afterwards left alone, it is in the
   database for exactly n expire passes after it has expired, and the next one frees it. Lookups of an expired
   entry, lookups of other addresses and expire passes while it is live make no difference.
   */
  lemma Lifetime(db: Db, key: NetAddr, mac: MacAddr, born: nat, live: seq<Timed>, late: seq<Timed>)
    requires key !in db && LeavesAlone(live, key) && LeavesAlone(late, key)
    requires During(live, born) && Behind(late, born) && Lookups(live, key) < WORD - 1
    ensures var all := [Timed(Insert(key, mac, true), born)] + live + late;
            && (key in Run(db, all) <==> Passes(late) <= Lookups(live, key))
            && (key in Run(db, all) ==> Run(db, all)[key].mac == mac)
  {
    var birth := Timed(Insert(key, mac, true), born);
    var d := Run(db, [birth]);
    RunOne(db, birth);
    LiveRun(d, key, born, live);
    RunOn(db, [birth], live);
    RunOn(db, [birth] + live, late);
    AgeingIsExact(Run(d, live), key, born, late);
  }

  /** An insert of a known address renews its time and keeps its uses. */
  lemma Renewed(db: Db, key: NetAddr, mac: MacAddr, now: nat, room: bool, ops: seq<Timed>)
    requires key in db && db[key].uses < WORD && LeavesAlone(ops, key) && During(ops, now)
    ensures var r := Run(db, [Timed(Insert(key, mac, room), now)] + ops);
            key in r && r[key] == Info(mac, (db[key].uses + Lookups(ops, key)) % WORD, Jiffies(now))
  {
    var t := Timed(Insert(key, mac, room), now);
    RunOne(db, t);
    RunOn(db, [t], ops);
    LiveRun(Run(db, [t]), key, now, ops);
  }

  // ------------------------------------------------------- IPv4 addresses

  /** The octets of an IPv4 key: type 1, the address at octets 7 to 10, zeros elsewhere. */
  lemma Ipv4KeyOctets(ip: Ipv4)
    ensures forall i :: 0 <= i < 17 ==> Ipv4Key(ip)[i] == if i == 0 then 1 else if 7 <= i < 11 then ip[i - 7] else 0
  {
  }

  lemma DifferentHosts(a: Ipv4, b: Ipv4)
    ensures Ipv4Key(a) == Ipv4Key(b) <==> a == b
  {
    Ipv4KeyOctets(a);
    Ipv4KeyOctets(b);
    if Ipv4Key(a) == Ipv4Key(b) {
      forall i | 0 <= i < 4 ensures a[i] == b[i] {
        assert Ipv4Key(a)[7 + i] == Ipv4Key(b)[7 + i];
      }
    }
  }

  /** The bucket of an IPv4 host: the low four bits of the exclusive or of its four octets. */
  lemma Ipv4Bucket(ip: Ipv4)
    ensures Hash(Ipv4Key(ip)) == ((ip[0] ^ ip[1] ^ ip[2] ^ ip[3]) & 15) as nat
  {
    Ipv4KeyOctets(ip);
    XorOfFour(Ipv4Key(ip));
  }

  lemma XorOfFour(k: NetAddr)
    ensures XorOf(k, 7, 11) == k[7] ^ k[8] ^ k[9] ^ k[10]
  {
    assert XorOf(k, 10, 11) == k[10] ^ XorOf(k, 11, 11);
    assert XorOf(k, 8, 11) == k[8] ^ XorOf(k, 9, 11);
    Reassociate(k[7], k[8], k[9], k[10]);
  }

  lemma XorFront(k: NetAddr, lo: nat, hi: nat)
    requires lo < hi <= 17
    ensures XorOf(k, lo, hi) == k[lo] ^ XorOf(k, lo + 1, hi)
  {
  }

  lemma XorEnds(k: NetAddr, hi: nat)
    requires hi <= 17
    ensures XorOf(k, hi, hi) == 0 && XorOf(k, hi, hi) ^ 0 == 0
  {
  }

  lemma XorCombined(a: Octet, r: Octet, x: Octet, here: bool, there: bool)
    requires !(here && there)
    ensures (if here then a ^ x else a) ^ (r ^ if there then x else 0) == (a ^ r) ^ if here || there then x else 0
  {
  }

  function ChangedAt(k: NetAddr, i: nat, x: Octet): (n: NetAddr)
    requires i < 17
    ensures forall j :: 0 <= j < 17 ==> n[j] == if j == i then k[j] ^ x else k[j]
  {
    k[i := k[i] ^ x]
  }

  lemma {:induction false} XorChanged(k: NetAddr, n: NetAddr, lo: nat, hi: nat, i: nat, x: Octet)
    requires lo <= hi <= 17 && i < 17 && n == ChangedAt(k, i, x)
    ensures XorOf(n, lo, hi) == XorOf(k, lo, hi) ^ if lo <= i < hi then x else 0
    decreases hi - lo
  {
    if lo == hi {
      XorEnds(k, hi);
      XorEnds(n, hi);
    } else {
      XorChanged(k, n, lo + 1, hi, i, x);
      XorFront(k, lo, hi);
      XorFront(n, lo, hi);
      XorCombined(k[lo], XorOf(k, lo + 1, hi), x, lo == i, lo + 1 <= i < hi);
    }
  }

  /** The octets behind the type that count for the bucket: types 1, 5 and 2 are IPv4, PPPoE and IPv6. */
  predicate CountsForBucket(kind: Octet, i: nat) {
    if kind == 1 then 7 <= i < 11 else if kind == 5 then i < 9 else true
  }

  lemma SameNibble(a: Octet, x: Octet)
    ensures LowNibble(a ^ x) == LowNibble(a) <==> x & 15 == 0
  {
    assert (a ^ x) & 15 == a & 15 <==> x & 15 == 0;
  }

  function From(kind: Octet): nat {
    if kind == 1 then 7 else if kind == 2 then 1 else 0
  }

  function To(kind: Octet): (n: nat)
    ensures From(kind) <= n <= 17
  {
    if kind == 1 then 11 else if kind == 5 then 9 else 17
  }

  lemma HashRange(k: NetAddr, n: NetAddr, v: Octet)
    requires k[0] == n[0] && XorOf(n, From(k[0]), To(k[0])) == XorOf(k, From(k[0]), To(k[0])) ^ v
    ensures Hash(n) != Hash(k) <==> v & 15 != 0
  {
    SameNibble(XorOf(k, From(k[0]), To(k[0])), v);
  }

  lemma NoNibble(x: Octet, counts: bool)
    ensures (if counts then x else 0) & 15 != 0 <==> counts && x & 15 != 0
  {
  }

  /** Changing an octet of a key moves it to another bucket exactly if the octet counts and its low four bits change. */
  lemma BucketMoves(k: NetAddr, i: nat, x: Octet)
    requires 0 < i < 17
    ensures Hash(ChangedAt(k, i, x)) != Hash(k) <==> CountsForBucket(k[0], i) && x & 15 != 0
  {
    var n, counts := ChangedAt(k, i, x), From(k[0]) <= i < To(k[0]);
    XorChanged(k, n, From(k[0]), To(k[0]), i, x);
    HashRange(k, n, if counts then x else 0);
    NoNibble(x, counts);
  }

  lemma Reassociate(a: Octet, b: Octet, c: Octet, d: Octet)
    ensures a ^ (b ^ (c ^ (d ^ 0))) == a ^ b ^ c ^ d
  {
  }

  // ---------------------------------------------------------- short cut

  /** The address of the host whose entry a frame refreshes; none if the short cut has nothing. */
  ghost predicate Refreshes(b: Bridge, source: MacAddr, ip: Ipv4, key: NetAddr) {
    if source == b.mac then b.cached == Cached(key)
    else key[0] == 1 && key[7..11] == ip && (forall i :: 1 <= i < 7 || 11 <= i < 17 ==> key[i] == 0)
  }

  /**
   A frame sent through the short cut refreshes the time of at most one entry: the cached one if the frame comes
   from the source seen last, and otherwise that of its own IPv4 address. No use count and no MAC address changes.
   */
  lemma ScdbRefreshesOne(b: Bridge, source: MacAddr, ip: Ipv4, now: nat, key: NetAddr)
    requires b.cached.Cached? ==> b.cached.key in b.db
    ensures var r := After(b, DoScdb(source, ip, now));
            && (key in r.db <==> key in b.db)
            && (key in b.db ==>
                  r.db[key] == if Refreshes(b, source, ip, key) then b.db[key].(stamp := Jiffies(now)) else b.db[key])
            && (r.cached == Cached(key) ==> Refreshes(b, source, ip, key) && r.mac == source)
            && (key in b.db && Refreshes(b, source, ip, key) ==> r.cached == Cached(key) && r.mac == source)
            && (r.cached.Nothing? ==> r.mac == if source == b.mac then [0, 0, 0, 0, 0, 0] else b.mac)
  {
    Ipv4KeyOctets(ip);
    if source != b.mac && Refreshes(b, source, ip, key) {
      assert forall i :: 0 <= i < 17 ==> key[i] == Ipv4Key(ip)[i] by {
        assert forall i :: 7 <= i < 11 ==> key[i] == key[7..11][i - 7];
      }
      assert key == Ipv4Key(ip);
    }
  }

  /** An expire pass or a cleanup that frees the cached entry takes the short cut and its source with it. */
  lemma ForgottenWithEntry(b: Bridge, c: Call)
    requires b.cached.Cached? && !c.DoScdb?
    ensures if b.cached.key in After(b, c).db then After(b, c).cached == b.cached && After(b, c).mac == b.mac
            else After(b, c).cached == Nothing && After(b, c).mac == [0, 0, 0, 0, 0, 0]
  {
  }

  const FRESH: Bridge := Bridge(map[], NO_MAC, Nothing)

  ghost predicate Sent(calls: seq<Call>, source: MacAddr, key: NetAddr) {
    exists c :: c in calls && c.DoScdb? && c.source == source && Ipv4Key(c.ip) == key
  }

  /** In every run the short cut points at a known address that a frame of its source was sent from. */
  lemma {:induction false} CachedWasSent(calls: seq<Call>, key: NetAddr)
    requires AfterAll(FRESH, calls).cached == Cached(key)
    ensures key in AfterAll(FRESH, calls).db && Sent(calls, AfterAll(FRESH, calls).mac, key)
    decreases |calls|
  {
    if calls != [] {
      var n := |calls| - 1;
      var before, c := AfterAll(FRESH, calls[..n]), calls[n];
      assert calls == calls[..n] + [c];
      AfterOneMore(FRESH, calls[..n], c);
      if before.cached == Cached(key) {
        CachedWasSent(calls[..n], key);
      }
    }
  }
}
