/**
 NAT2.5 hash table: sixteen chains of linked entries, each entry holding the
 address of the link that reaches it. Every operation is proved to act on the
 abstract map exactly as Nat25Spec says.
 */
module Nat25Table {
  import opened Nat25Spec

  /** The C type `entry **`: the place of the pointer that reaches an entry. */
  datatype Link = NoLink | Bucket(index: nat) | NextOf(entry: Entry)

  datatype Position = Position(bucket: nat, at: nat)

  class Entry {
    var nextHash: Entry?
    var pprevHash: Link
    var useCount: nat
    var macAddr: MacAddr
    var ageingTimer: nat
    const networkAddr: NetAddr

    constructor (key: NetAddr, mac: MacAddr, stamp: nat)
      ensures networkAddr == key && macAddr == mac && useCount == 1 && ageingTimer == stamp
    {
      networkAddr, macAddr, useCount, ageingTimer := key, mac, 1, stamp;
      nextHash, pprevHash := null, NoLink;
    }

    ghost function Contents(): Info
      reads `macAddr, `useCount, `ageingTimer
    {
      Info(macAddr, useCount, ageingTimer)
    }
  }

  lemma UpdatedThenRemoved(v: Db, key: NetAddr, i: Info)
    ensures v[key := i] - {key} == v - {key}
  {
  }

  function KeysOf(c: seq<Entry>): (ks: seq<NetAddr>)
    ensures |ks| == |c| && forall a :: 0 <= a < |c| ==> ks[a] == c[a].networkAddr
  {
    seq(|c|, a requires 0 <= a < |c| => c[a].networkAddr)
  }

  /** The handled keys are those of earlier buckets, and those of bucket i that are not left. */
  ghost predicate Handled(slotOf: NetAddr -> Slot, i: nat, db: Db, done: set<NetAddr>, left: seq<NetAddr>) {
    && done <= db.Keys
    && forall k :: k in db ==> (k in done <==> slotOf(k) < i || (slotOf(k) == i && k !in left))
  }

  lemma HandledNext(slotOf: NetAddr -> Slot, i: nat, db: Db, done: set<NetAddr>, k: NetAddr, left: seq<NetAddr>)
    requires Handled(slotOf, i, db, done, [k] + left) && k !in left && slotOf(k) == i && (k in db || k in done)
    ensures k !in done && Handled(slotOf, i, db, done + {k}, left)
  {
    assert forall x :: x in [k] + left <==> x == k || x in left;
  }

  function WithoutIndex<T>(s: seq<T>, i: nat): (r: seq<T>)
    requires i < |s|
    ensures |r| == |s| - 1
    ensures forall j :: 0 <= j < i ==> r[j] == s[j]
    ensures forall j :: i <= j < |r| ==> r[j] == s[j + 1]
  {
    s[..i] + s[i + 1..]
  }

  class Table {
    /** The hash function; nothing below depends on which one it is. */
    const slotOf: NetAddr -> Slot
    const nethash: array<Entry?>
    var scdbEntry: Entry?
    var scdbMac: MacAddr
    var scdbIp: Ipv4

    /** The entries that are allocated and reachable, by key and as a set. */
    ghost var entries: map<NetAddr, Entry>
    ghost var nodes: set<Entry>
    /** The entries of each bucket, head first. */
    ghost var chains: seq<seq<Entry>>

    /** Entry a of chain i is reached by one link, which is the one it names as its own. */
    ghost predicate Linked(i: nat, a: nat)
      requires i < |chains| && a < |chains[i]|
      reads `chains, `nodes, nodes`nextHash, nodes`pprevHash
    {
      var c := chains[i];
      && c[a] in nodes
      && c[a].nextHash == (if a + 1 < |c| then c[a + 1] else null)
      && c[a].pprevHash == (if a == 0 then Bucket(i) else NextOf(c[a - 1]))
    }

    ghost predicate ChainOk(i: nat)
      requires i < |chains| && nethash.Length == NAT25_HASH_SIZE == |chains|
      reads `chains, `nodes, nethash, nodes`nextHash, nodes`pprevHash
    {
      var c := chains[i];
      && nethash[i] == (if c == [] then null else c[0])
      && (forall e :: e in c ==> e in nodes && slotOf(e.networkAddr) == i)
      && (forall a :: 0 <= a < |c| ==> Linked(i, a))
      && (forall a, b :: 0 <= a < b < |c| ==> c[a] != c[b])
    }

    /** The first n chains are well formed. */
    ghost predicate ChainsOk(n: nat)
      requires n <= NAT25_HASH_SIZE && nethash.Length == NAT25_HASH_SIZE == |chains|
      reads `chains, `nodes, nethash, nodes`nextHash, nodes`pprevHash
    {
      n == 0 || (ChainOk(n - 1) && ChainsOk(n - 1))
    }

    lemma ChainsOkIff(n: nat)
      requires n <= NAT25_HASH_SIZE && nethash.Length == NAT25_HASH_SIZE == |chains|
      ensures ChainsOk(n) <==> forall i :: 0 <= i < n ==> ChainOk(i)
    {
    }

    /** Keys name live entries one to one. */
    ghost predicate Indexed()
      reads `entries, `nodes
    {
      && (forall k :: k in entries ==> entries[k] in nodes && entries[k].networkAddr == k)
      && (forall e :: e in nodes ==> e.networkAddr in entries && entries[e.networkAddr] == e)
    }

    /** The chains are well formed and hold exactly the live entries. */
    ghost predicate Structured()
      reads `entries, `chains, `nodes, nethash, nodes`nextHash, nodes`pprevHash
    {
      && nethash.Length == NAT25_HASH_SIZE == |chains|
      && ChainsOk(NAT25_HASH_SIZE)
      && (forall e :: e in nodes ==> e in chains[slotOf(e.networkAddr)])
      && Indexed()
    }

    /** The short-cut cache points at nothing or at a live entry. */
    ghost predicate Valid()
      reads `scdbEntry, `entries, `chains, `nodes, nethash, nodes`nextHash, nodes`pprevHash
    {
      && Structured()
      && (scdbEntry != null ==> scdbEntry in nodes)
    }

    /** The plain map this table stands for. */
    ghost function View(): (db: Db)
      requires Indexed()
      reads `entries, `nodes, nodes`macAddr, nodes`useCount, nodes`ageingTimer
      ensures db.Keys == entries.Keys
    {
      map k | k in entries :: entries[k].Contents()
    }

    /** The map with the short cut. */
    ghost function Shortcut(): (c: Cached)
      reads `scdbEntry
    {
      if scdbEntry == null then Nothing else Cached(scdbEntry.networkAddr)
    }

    ghost function Whole(): Bridge
      requires Indexed()
      reads `entries, `nodes, `scdbEntry, `scdbMac, nodes`macAddr, nodes`useCount, nodes`ageingTimer
    {
      Bridge(View(), scdbMac, Shortcut())
    }

    /** A sweep leaves the short cut alone, or clears it because its entry is gone. */
    twostate predicate ShortcutKept()
      reads `scdbEntry, `scdbMac, `nodes
    {
      || (scdbEntry == old(scdbEntry) && scdbMac == old(scdbMac))
      || (scdbEntry == null && scdbMac == NO_MAC && old(scdbEntry) != null && old(scdbEntry) !in nodes)
    }

    constructor (slotOf: NetAddr -> Slot)
      ensures Valid() && fresh(nethash) && nodes == {} && Whole() == Bridge(map[], NO_MAC, Nothing)
      ensures this.slotOf == slotOf
    {
      this.slotOf := slotOf;
      nethash := new Entry?[NAT25_HASH_SIZE](_ => null);
      scdbEntry := null;
      scdbMac, scdbIp := NO_MAC, seq(4, _ => 0);
      entries, nodes := map[], {};
      chains := seq(NAT25_HASH_SIZE, _ => []);
      new;
      ChainsOkIff(NAT25_HASH_SIZE);
    }

    /** A chain whose entries and head keep their links is still well formed. */
    twostate lemma ChainKept(i: nat)
      requires old(nethash.Length == NAT25_HASH_SIZE == |chains|) && |chains| == NAT25_HASH_SIZE
      requires i < NAT25_HASH_SIZE && old(ChainOk(i))
      requires chains[i] == old(chains[i]) && nethash[i] == old(nethash[i])
      requires forall e :: e in chains[i] ==> e in nodes && SameLinks(e)
      ensures ChainOk(i)
    {
      forall a | 0 <= a < |chains[i]|
        ensures Linked(i, a)
      {
        assert old(Linked(i, a));
      }
    }

    /** __network_hash_link: puts a fresh entry at the head of its bucket. */
    method HashLink(ent: Entry, slot: nat)
      requires Structured()
      requires slot == slotOf(ent.networkAddr) && ent !in nodes && ent.networkAddr !in entries
      modifies `entries, `nodes, `chains, nethash
      modifies nodes`nextHash, nodes`pprevHash, ent`nextHash, ent`pprevHash
      ensures Structured()
      ensures nodes == old(nodes) + {ent} && entries == old(entries)[ent.networkAddr := ent]
      ensures chains == old(chains)[slot := [ent] + old(chains)[slot]]
    {
      ghost var c := chains[slot];
      ChainsOkIff(NAT25_HASH_SIZE);
      assert ChainOk(slot);
      ent.nextHash := nethash[slot];
      if ent.nextHash != null {
        assert Linked(slot, 0);
        ent.nextHash.pprevHash := NextOf(ent);
      }
      nethash[slot] := ent;
      ent.pprevHash := Bucket(slot);
      chains := chains[slot := [ent] + c];
      nodes := nodes + {ent};
      entries := entries[ent.networkAddr := ent];
      PushKeepsStructure(ent, slot);
    }

    /** The pointer writes of a push, and nothing else, keep the table well formed. */
    twostate lemma PushKeepsStructure(new ent: Entry, slot: nat)
      requires old(Structured()) && slot == slotOf(ent.networkAddr)
      requires ent !in old(nodes) && ent.networkAddr !in old(entries)
      requires nodes == old(nodes) + {ent} && entries == old(entries)[ent.networkAddr := ent]
      requires chains == old(chains)[slot := [ent] + old(chains)[slot]]
      requires nethash[..] == old(nethash[..])[slot := ent]
      requires ent.nextHash == old(nethash[slot]) && ent.pprevHash == Bucket(slot)
      requires forall e :: e in old(nodes) ==> e.nextHash == old(e.nextHash)
      requires forall e :: e in old(nodes) ==>
                 e.pprevHash == if e == old(nethash[slot]) then NextOf(ent) else old(e.pprevHash)
      ensures Structured()
    {
      OldChains(NAT25_HASH_SIZE);
      assert old(ChainOk(slot));
      forall a | 0 <= a < |chains[slot]|
        ensures Linked(slot, a)
      {
        if a > 0 {
          assert old(Linked(slot, a - 1));
          assert chains[slot][a] == old(chains)[slot][a - 1] && chains[slot][a] in old(nodes);
        }
      }
      assert ChainOk(slot);
      OthersKept(slot);
    }

    /** __network_hash_unlink: writes through the link that reaches the entry, wherever it is. */
    method HashUnlink(ent: Entry)
      requires ent in nodes && !ent.pprevHash.NoLink? && ent.nextHash != ent
      requires ent.nextHash != null ==> ent.nextHash in nodes
      requires match ent.pprevHash
               case Bucket(i) => i < nethash.Length
               case NextOf(p) => p in nodes && p != ent
               case NoLink => true
      modifies nethash, nodes`nextHash, nodes`pprevHash
      ensures ent.nextHash == null && ent.pprevHash == NoLink
      ensures nethash[..] == if old(ent.pprevHash).Bucket?
                             then old(nethash[..])[old(ent.pprevHash).index := old(ent.nextHash)]
                             else old(nethash[..])
      ensures forall e :: e in nodes && e != ent ==>
                e.nextHash == if old(ent.pprevHash) == NextOf(e) then old(ent.nextHash) else old(e.nextHash)
      ensures forall e :: e in nodes && e != ent ==>
                e.pprevHash == if e == old(ent.nextHash) then old(ent.pprevHash) else old(e.pprevHash)
    {
      match ent.pprevHash {
        case Bucket(i) => nethash[i] := ent.nextHash;
        case NextOf(p) => p.nextHash := ent.nextHash;
      }
      if ent.nextHash != null {
        ent.nextHash.pprevHash := ent.pprevHash;
      }
      ent.nextHash := null;
      ent.pprevHash := NoLink;
    }

    /** A live entry's two pointers are safe to write through. */
    lemma LinksOf(ent: Entry) returns (at: nat)
      requires Structured() && ent in nodes
      ensures var c := chains[slotOf(ent.networkAddr)];
              && at < |c| && c[at] == ent
              && ent.nextHash == (if at + 1 < |c| then c[at + 1] else null)
              && ent.pprevHash == (if at == 0 then Bucket(slotOf(ent.networkAddr)) else NextOf(c[at - 1]))
              && ent.nextHash != ent && (ent.nextHash != null ==> ent.nextHash in nodes)
              && (at > 0 ==> c[at - 1] in nodes && c[at - 1] != ent)
    {
      var h := slotOf(ent.networkAddr);
      ChainsOkIff(NAT25_HASH_SIZE);
      assert ChainOk(h);
      at :| at < |chains[h]| && chains[h][at] == ent;
      assert Linked(h, at);
      if at > 0 {
        assert Linked(h, at - 1);
      }
      if at + 1 < |chains[h]| {
        assert Linked(h, at + 1);
      }
    }

    /** The head pointer of a bucket. */
    lemma HeadOf(i: nat)
      requires Structured() && i < NAT25_HASH_SIZE
      ensures nethash[i] == if chains[i] == [] then null else chains[i][0]
    {
      ChainsOkIff(NAT25_HASH_SIZE);
      assert ChainOk(i);
    }

    /** What is known of the entry at position a of chain i. */
    lemma EntryOf(i: nat, a: nat)
      requires Structured() && i < NAT25_HASH_SIZE && a < |chains[i]|
      ensures var e := chains[i][a];
              && e in nodes && slotOf(e.networkAddr) == i && e.networkAddr in entries
              && entries[e.networkAddr] == e && e !in chains[i][a + 1..]
              && e.nextHash == if a + 1 < |chains[i]| then chains[i][a + 1] else null
    {
      ChainsOkIff(NAT25_HASH_SIZE);
      assert ChainOk(i) && Linked(i, a);
    }

    /** Unlinks an entry and frees it. */
    method Remove(ent: Entry, ghost at: nat)
      requires Structured() && ent in nodes
      requires at < |chains[slotOf(ent.networkAddr)]| && chains[slotOf(ent.networkAddr)][at] == ent
      modifies `entries, `nodes, `chains, nethash, nodes`nextHash, nodes`pprevHash
      ensures Structured()
      ensures nodes == old(nodes) - {ent} && entries == old(entries) - {ent.networkAddr}
      ensures chains == old(chains)[slotOf(ent.networkAddr) := WithoutIndex(old(chains)[slotOf(ent.networkAddr)], at)]
    {
      ghost var h := slotOf(ent.networkAddr);
      ghost var at' := LinksOf(ent);
      HashUnlink(ent);
      chains := chains[h := WithoutIndex(chains[h], at)];
      nodes := nodes - {ent};
      entries := entries - {ent.networkAddr};
      RemoveKeepsStructure(ent, at);
    }

    /** The pointer writes of an unlink, and nothing else, keep the table well formed. */
    twostate lemma RemoveKeepsStructure(new ent: Entry, at: nat)
      requires old(Structured()) && ent in old(nodes)
      requires at < |old(chains)[slotOf(ent.networkAddr)]| && old(chains)[slotOf(ent.networkAddr)][at] == ent
      requires nodes == old(nodes) - {ent} && entries == old(entries) - {ent.networkAddr}
      requires chains == old(chains)[slotOf(ent.networkAddr) := WithoutIndex(old(chains)[slotOf(ent.networkAddr)], at)]
      requires nethash[..] == if old(ent.pprevHash).Bucket? && old(ent.pprevHash).index < nethash.Length
                              then old(nethash[..])[old(ent.pprevHash).index := old(ent.nextHash)]
                              else old(nethash[..])
      requires forall e :: e in nodes ==>
                 e.nextHash == if old(ent.pprevHash) == NextOf(e) then old(ent.nextHash) else old(e.nextHash)
      requires forall e :: e in nodes ==>
                 e.pprevHash == if e == old(ent.nextHash) then old(ent.pprevHash) else old(e.pprevHash)
      ensures Structured()
    {
      var h := slotOf(ent.networkAddr);
      OldChains(NAT25_HASH_SIZE);
      assert old(ChainOk(h)) && old(Linked(h, at));
      RemoveKeepsChain(Position(h, at));
      OthersKept(h);
    }

    /** The chain of a bucket that lost the entry at a position. */
    twostate lemma RemoveKeepsChain(p: Position)
      requires old(nethash.Length == NAT25_HASH_SIZE == |chains|) && |chains| == NAT25_HASH_SIZE
      requires p.bucket < NAT25_HASH_SIZE && old(ChainOk(p.bucket)) && p.at < |old(chains)[p.bucket]|
      requires var h, ent := p.bucket, old(chains)[p.bucket][p.at];
               && nodes == old(nodes) - {ent} && chains[h] == WithoutIndex(old(chains)[h], p.at)
               && nethash[h] == (if old(ent.pprevHash) == Bucket(h) then old(ent.nextHash) else old(nethash[h]))
               && (forall e :: e in nodes ==>
                     e.nextHash == if old(ent.pprevHash) == NextOf(e) then old(ent.nextHash) else old(e.nextHash))
               && (forall e :: e in nodes ==>
                     e.pprevHash == if e == old(ent.nextHash) then old(ent.pprevHash) else old(e.pprevHash))
      ensures ChainOk(p.bucket)
    {
      assert old(Linked(p.bucket, p.at));
      forall a | 0 <= a < |chains[p.bucket]|
        ensures Linked(p.bucket, a)
      {
        assert old(Linked(p.bucket, a)) && old(Linked(p.bucket, a + 1));
      }
    }

    /** The structure depends on the links alone. */
    twostate lemma LinksKept()
      requires old(Structured()) && unchanged(`entries, `chains, `nodes, nethash)
      requires forall e :: e in nodes ==> SameLinks(e)
      ensures Structured()
    {
      OldChains(NAT25_HASH_SIZE);
      forall i | 0 <= i < NAT25_HASH_SIZE
        ensures ChainOk(i)
      {
        assert old(ChainOk(i));
        ChainKept(i);
      }
      ChainsOkIff(NAT25_HASH_SIZE);
    }

    /** A short cut leads to a key of the map. */
    lemma CachedIsKnown()
      requires Valid()
      ensures Shortcut().Cached? ==> Shortcut().key in View()
    {
    }

    /** Writing the contents of one entry updates one key of the map. */
    twostate lemma ViewUpdated(key: NetAddr)
      requires old(Indexed()) && Indexed()
      requires entries == old(entries) && nodes == old(nodes) && key in entries
      requires forall e :: e in nodes && e != entries[key] ==> e.Contents() == old(e.Contents())
      ensures View() == old(View())[key := entries[key].Contents()]
    {
    }

    twostate lemma ViewKept()
      requires old(Indexed()) && Indexed() && entries == old(entries) && nodes == old(nodes)
      requires forall e :: e in nodes ==> e.Contents() == old(e.Contents())
      ensures View() == old(View())
    {
    }

    /** Linking a new entry adds one key to the map. */
    twostate lemma ViewExtended(new ent: Entry)
      requires old(Indexed()) && Indexed()
      requires entries == old(entries)[ent.networkAddr := ent] && ent.networkAddr !in old(entries)
      requires forall e :: e in old(nodes) ==> e.Contents() == old(e.Contents())
      ensures View() == old(View())[ent.networkAddr := ent.Contents()]
    {
    }

    /** Unlinking an entry removes one key from the map. */
    twostate lemma ViewShrunk(key: NetAddr)
      requires old(Indexed()) && Indexed()
      requires entries == old(entries) - {key}
      requires forall e :: e in nodes ==> e in old(nodes) && e.Contents() == old(e.Contents())
      ensures View() == old(View()) - {key}
    {
    }

    /** Walks the chain of a key; the walk ends at the key's entry or at the end of the chain. */
    method Find(key: NetAddr) returns (db: Entry?)
      requires Structured()
      ensures db == if key in entries then entries[key] else null
    {
      var slot := slotOf(key);
      ghost var c := chains[slot];
      ghost var a := 0;
      ChainsOkIff(NAT25_HASH_SIZE);
      assert ChainOk(slot);
      db := nethash[slot];
      while db != null
        invariant a <= |c|
        invariant db == if a < |c| then c[a] else null
        invariant forall b :: 0 <= b < a ==> c[b].networkAddr != key
        decreases |c| - a
      {
        assert Linked(slot, a);
        if db.networkAddr == key {
          return;
        }
        db := db.nextHash;
        a := a + 1;
      }
    }

    /** Writes the data fields of a live entry; the links are not touched. */
    method Store(db: Entry, mac: MacAddr, uses: nat, stamp: nat)
      requires Valid() && db in nodes
      modifies db`macAddr, db`useCount, db`ageingTimer
      ensures Valid() && View() == old(View())[db.networkAddr := Info(mac, uses, stamp)]
      ensures db.Contents() == Info(mac, uses, stamp)
    {
      db.macAddr, db.useCount, db.ageingTimer := mac, uses, stamp;
      LinksKept();
      ViewUpdated(db.networkAddr);
    }

    /** __nat25_db_network_lookup_and_replace: `hit` is the return value, `dest` the frame's destination. */
    method LookupAndReplace(key: NetAddr, dest: MacAddr, now: nat) returns (hit: bool, dest': MacAddr)
      requires Valid()
      modifies nodes
      ensures Valid() && View() == LookedUp(old(View()), key, now)
      ensures hit <==> key in old(View())
      ensures dest' == if hit && !HasExpired(old(View())[key].stamp, now) then old(View())[key].mac else dest
      ensures hit && !HasExpired(old(View())[key].stamp, now) && old(View())[key].uses < WORD ==>
                View() == old(View())[key := old(View())[key].(uses := (old(View())[key].uses + 1) % WORD)]
      ensures !hit || HasExpired(old(View())[key].stamp, now) ==> View() == old(View())
    {
      dest' := dest;
      LookupCounts(View(), key, now);
      var db := Find(key);
      hit := db != null;
      if hit && !HasExpired(db.ageingTimer, now) {
        dest' := db.macAddr;
        CountUse(db, now);
      }
    }

    /** atomic_inc on the use count of a live entry. */
    method CountUse(db: Entry, now: nat)
      requires Valid() && db in nodes && !HasExpired(db.ageingTimer, now)
      modifies nodes
      ensures Valid() && View() == LookedUp(old(View()), db.networkAddr, now)
    {
      assert db.Contents() == View()[db.networkAddr];
      Store(db, db.macAddr, Up(db.useCount), db.ageingTimer);
    }

    /** __nat25_db_network_insert: refreshes a known key, otherwise links a new entry if one can be had. */
    method Insert(key: NetAddr, mac: MacAddr, now: nat, room: bool)
      requires Valid()
      modifies `entries, `nodes, `chains, nethash, nodes
      ensures Valid() && View() == Inserted(old(View()), key, mac, now, room)
      ensures key in old(View()) ==>
                View() == old(View())[key := Info(mac, old(View())[key].uses, Jiffies(now))]
      ensures key !in old(View()) ==>
                View() == if room then old(View())[key := Info(mac, 1, Jiffies(now))] else old(View())
      ensures fresh(nodes - old(nodes)) && old(nodes) <= nodes
    {
      var db := Find(key);
      if db != null {
        Refresh(db, mac, now);
      } else if room {
        Add(key, mac, Jiffies(now));
      }
    }

    method Refresh(db: Entry, mac: MacAddr, now: nat)
      requires Valid() && db in nodes
      modifies nodes
      ensures Valid() && View() == old(View())[db.networkAddr := Info(mac, db.useCount, Jiffies(now))]
      ensures db.networkAddr in old(View()) && old(View())[db.networkAddr].uses == db.useCount
      ensures nodes == old(nodes)
    {
      assert db.Contents() == View()[db.networkAddr];
      Store(db, mac, db.useCount, Jiffies(now));
    }

    method Add(key: NetAddr, mac: MacAddr, stamp: nat)
      requires Valid() && key !in entries
      modifies `entries, `nodes, `chains, nethash, nodes
      ensures Valid() && View() == old(View())[key := Info(mac, 1, stamp)]
      ensures fresh(nodes - old(nodes)) && old(nodes) <= nodes
    {
      var ent := new Entry(key, mac, stamp);
      HashLink(ent, slotOf(key));
      ViewExtended(ent);
    }

    /**
     The transmitter's short cut for IPv4 frames (scdb_findEntry and its caller): a new source is
     looked up and cached, a repeated one refreshes the cached entry, a stale one is forgotten.
     */
    method ScdbRefresh(mac: MacAddr, ip: Ipv4, now: nat)
      requires Valid()
      modifies `scdbEntry, `scdbMac, `scdbIp, nodes
      ensures Valid()
      ensures var a := Aimed(old(Whole()), mac, ip);
              && scdbMac == a.mac && Shortcut() == a.cached
              && View() == if a.cached.Nothing? then old(View()) else Touched(old(View()), a.cached.key, now)
    {
      Cache(mac, ip, Ipv4Key(ip));
      if scdbEntry != null {
        Stamp(now);
      }
    }

    method Cache(mac: MacAddr, ip: Ipv4, key: NetAddr)
      requires Valid()
      modifies `scdbEntry, `scdbMac, `scdbIp
      ensures Valid() && View() == old(View())
      ensures key == Ipv4Key(ip) ==> Whole() == Aimed(old(Whole()), mac, ip)
    {
      if scdbMac != mac {
        scdbEntry := Find(key);
        if scdbEntry != null {
          scdbMac, scdbIp := mac, ip;
        }
        LinksKept();
        ViewKept();
      } else if scdbEntry == null {
        scdbMac, scdbIp := NO_MAC, seq(4, _ => 0);
      }
    }

    method Stamp(now: nat)
      requires Valid() && scdbEntry != null
      modifies nodes
      ensures Valid() && scdbEntry == old(scdbEntry) && View() == Touched(old(View()), scdbEntry.networkAddr, now)
    {
      Store(scdbEntry, scdbEntry.macAddr, scdbEntry.useCount, Jiffies(now));
    }

    /** Forgets the short cut if it points at an entry about to be freed. */
    method DropScdb(f: Entry)
      requires Structured()
      modifies `scdbEntry, `scdbMac, `scdbIp
      ensures scdbEntry == if old(scdbEntry) == f then null else old(scdbEntry)
      ensures scdbMac == if old(scdbEntry) == f then NO_MAC else old(scdbMac)
    {
      if scdbEntry == f {
        scdbMac, scdbIp := NO_MAC, seq(4, _ => 0);
        scdbEntry := null;
      }
    }

    /** Unlinks and frees one entry of a sweep. */
    method Free(f: Entry, ghost at: nat)
      requires Valid() && f in nodes
      requires at < |chains[slotOf(f.networkAddr)]| && chains[slotOf(f.networkAddr)][at] == f
      modifies `scdbEntry, `scdbMac, `scdbIp, `entries, `nodes, `chains, nethash, nodes`nextHash, nodes`pprevHash
      ensures Valid() && View() == old(View()) - {f.networkAddr} && nodes == old(nodes) - {f} && ShortcutKept()
      ensures entries == old(entries) - {f.networkAddr}
      ensures chains == old(chains)[slotOf(f.networkAddr) := WithoutIndex(old(chains)[slotOf(f.networkAddr)], at)]
    {
      DropScdb(f);
      Remove(f, at);
      ViewShrunk(f.networkAddr);
    }

    /** One step of nat25_db_expire: ages an expired entry and frees it when its count reaches zero. */
    method ExpireOne(f: Entry, ghost at: nat, now: nat) returns (freed: bool)
      requires Valid() && f in nodes
      requires at < |chains[slotOf(f.networkAddr)]| && chains[slotOf(f.networkAddr)][at] == f
      modifies `scdbEntry, `scdbMac, `scdbIp, `entries, `nodes, `chains, nethash, nodes
      ensures Valid() && freed == Freed(old(f.Contents()), now) && ShortcutKept()
      ensures View() == if freed then old(View()) - {f.networkAddr}
                        else old(View())[f.networkAddr := Aged(old(f.Contents()), now)]
      ensures nodes == if freed then old(nodes) - {f} else old(nodes)
      ensures entries == if freed then old(entries) - {f.networkAddr} else old(entries)
      ensures chains == if freed
                        then old(chains)[slotOf(f.networkAddr) := WithoutIndex(old(chains)[slotOf(f.networkAddr)], at)]
                        else old(chains)
    {
      ghost var v, key := View(), f.networkAddr;
      freed := Age(f, now);
      if freed {
        UpdatedThenRemoved(v, key, View()[key]);
        Free(f, at);
      }
    }

    /** The locked decrement of an expired entry; true when it reaches zero. */
    method Age(f: Entry, now: nat) returns (zero: bool)
      requires Valid() && f in nodes
      modifies f`macAddr, f`useCount, f`ageingTimer
      ensures Valid() && zero == Freed(old(f.Contents()), now)
      ensures View() == old(View())[f.networkAddr := Aged(old(f.Contents()), now)]
    {
      zero := false;
      if HasExpired(f.ageingTimer, now) {
        Store(f, f.macAddr, Down(f.useCount), f.ageingTimer);
        zero := f.useCount == 0;
      }
    }

    /** nat25_db_expire: one pass over every bucket and every entry. */
    method Expire(now: nat)
      requires Valid()
      modifies `scdbEntry, `scdbMac, `scdbIp, `entries, `nodes, `chains, nethash, nodes
      ensures Valid() && View() == Expired(old(View()), now) && nodes <= old(nodes) && ShortcutKept()
    {
      ghost var db := View();
      ghost var done: set<NetAddr> := {};
      var i := 0;
      while i < NAT25_HASH_SIZE
        invariant i <= NAT25_HASH_SIZE
        invariant Valid() && nodes <= old(nodes) && ShortcutKept()
        invariant View() == ExpiredOn(db, now, done)
        invariant done == set k | k in db && slotOf(k) < i
      {
        done := ExpireBucket(i, now, db, done);
        i := i + 1;
      }
      assert done == db.Keys;
    }

    /** An expire pass has handled `done`: all earlier buckets, and bucket i but for the entries from position a on. */
    ghost predicate Swept(i: nat, a: nat, now: nat, db: Db, done: set<NetAddr>)
      reads `scdbEntry, `entries, `chains, `nodes, nethash, nodes
    {
      && Valid() && i < NAT25_HASH_SIZE && a <= |chains[i]|
      && View() == ExpiredOn(db, now, done)
      && Handled(slotOf, i, db, done, KeysOf(chains[i][a..]))
    }

    method ExpireBucket(i: nat, now: nat, ghost db: Db, ghost done: set<NetAddr>) returns (ghost done': set<NetAddr>)
      requires Valid() && i < NAT25_HASH_SIZE
      requires View() == ExpiredOn(db, now, done) && done == set k | k in db && slotOf(k) < i
      modifies `scdbEntry, `scdbMac, `scdbIp, `entries, `nodes, `chains, nethash, nodes
      ensures Valid() && nodes <= old(nodes) && ShortcutKept()
      ensures View() == ExpiredOn(db, now, done') && done' == set k | k in db && slotOf(k) < i + 1
    {
      done' := done;
      ghost var a: nat := 0;
      HeadOf(i);
      SweepStarts(i, now, db, done);
      var f := nethash[i];
      while f != null
        invariant Swept(i, a, now, db, done') && nodes <= old(nodes) && ShortcutKept()
        invariant f == if a < |chains[i]| then chains[i][a] else null
        decreases |chains[i]| - a
      {
        f, a, done' := ExpireNext(f, i, a, now, db, done');
      }
    }

    lemma SweepStarts(i: nat, now: nat, db: Db, done: set<NetAddr>)
      requires Valid() && i < NAT25_HASH_SIZE
      requires View() == ExpiredOn(db, now, done) && done == set k | k in db && slotOf(k) < i
      ensures Swept(i, 0, now, db, done)
    {
      var c := chains[i];
      assert c[0..] == c;
      forall k | k in db
        ensures k in done <==> slotOf(k) < i || (slotOf(k) == i && k !in KeysOf(c))
      {
        if slotOf(k) == i {
          assert k in View();
          var a :| 0 <= a < |c| && c[a] == entries[k];
          assert KeysOf(c)[a] == k;
        }
      }
    }

    /** The loop body of an expire pass: reads the successor before the entry may go away. */
    method ExpireNext(f: Entry, i: nat, ghost a: nat, now: nat, ghost db: Db, ghost done: set<NetAddr>)
      returns (g: Entry?, ghost a': nat, ghost done': set<NetAddr>)
      requires Swept(i, a, now, db, done) && a < |chains[i]| && f == chains[i][a]
      modifies `scdbEntry, `scdbMac, `scdbIp, `entries, `nodes, `chains, nethash, nodes
      ensures Swept(i, a', now, db, done') && nodes <= old(nodes) && ShortcutKept()
      ensures |chains[i]| - a' < old(|chains[i]|) - a
      ensures g == if a' < |chains[i]| then chains[i][a'] else null
    {
      EntryOf(i, a);
      g := f.nextHash;
      ghost var key, todo := f.networkAddr, chains[i][a..];
      SweptKey(i, a, now, db, done);
      var freed := ExpireOne(f, a, now);
      ExpiredOnStep(db, now, done, key);
      done' := done + {key};
      a' := if freed then a else a + 1;
      assert chains[i][a'..] == todo[1..];
    }

    /** The entry at the front of what is left has not been handled, and is next. */
    lemma SweptKey(i: nat, a: nat, now: nat, db: Db, done: set<NetAddr>)
      requires Swept(i, a, now, db, done) && a < |chains[i]|
      ensures var f := chains[i][a];
              && f in nodes && f.networkAddr in db && f.networkAddr !in done
              && f.Contents() == db[f.networkAddr]
              && Handled(slotOf, i, db, done + {f.networkAddr}, KeysOf(chains[i][a..][1..]))
    {
      EntryOf(i, a);
      KeyOnce(i, a);
      var f, todo := chains[i][a], chains[i][a..];
      assert KeysOf(todo) == [f.networkAddr] + KeysOf(todo[1..]);
      assert f.networkAddr in View();
      HandledNext(slotOf, i, db, done, f.networkAddr, KeysOf(todo[1..]));
    }

    /** No later entry of the chain has the same key. */
    lemma KeyOnce(i: nat, a: nat)
      requires Structured() && i < NAT25_HASH_SIZE && a < |chains[i]|
      ensures chains[i][a].networkAddr !in KeysOf(chains[i][a..][1..])
    {
      EntryOf(i, a);
      var rest := chains[i][a..][1..];
      assert rest == chains[i][a + 1..];
      forall b | 0 <= b < |rest| ensures rest[b].networkAddr != chains[i][a].networkAddr {
        EntryOf(i, a + 1 + b);
      }
    }

    /** nat25_db_cleanup: frees everything, head by head. */
    method Cleanup()
      requires Valid()
      modifies `scdbEntry, `scdbMac, `scdbIp, `entries, `nodes, `chains, nethash, nodes
      ensures Valid() && View() == map[] && nodes == {} && ShortcutKept()
    {
      var i := 0;
      while i < NAT25_HASH_SIZE
        invariant i <= NAT25_HASH_SIZE
        invariant Valid() && nodes <= old(nodes) && ShortcutKept()
        invariant forall j :: 0 <= j < i ==> chains[j] == []
      {
        CleanBucket(i);
        i := i + 1;
      }
    }

    method CleanBucket(i: nat)
      requires Valid() && i < NAT25_HASH_SIZE
      modifies `scdbEntry, `scdbMac, `scdbIp, `entries, `nodes, `chains, nethash, nodes
      ensures Valid() && nodes <= old(nodes) && ShortcutKept() && chains == old(chains)[i := []]
    {
      HeadOf(i);
      var f := nethash[i];
      while f != null
        invariant Valid() && nodes <= old(nodes) && ShortcutKept()
        invariant chains == old(chains)[i := chains[i]]
        invariant f == if chains[i] == [] then null else chains[i][0]
        decreases |chains[i]|
      {
        EntryOf(i, 0);
        var g := f.nextHash;
        Free(f, 0);
        f := g;
      }
    }

    /**
     Any run of calls: the table stays well formed, the short cut never dangles, and map and short
     cut are what the same run of map operations makes of them.
     */
    method Play(calls: seq<Call>)
      requires Valid()
      modifies this, nethash, nodes
      ensures Valid() && (scdbEntry != null ==> scdbEntry in nodes)
      ensures Whole() == AfterAll(old(Whole()), calls)
    {
      ghost var b := Whole();
      var i := 0;
      assert calls[..0] == [];
      while i < |calls|
        invariant i <= |calls| && fresh(nodes - old(nodes))
        invariant Valid() && Whole() == AfterAll(b, calls[..i])
      {
        AfterOneMore(b, calls[..i], calls[i]);
        assert calls[..i + 1] == calls[..i] + [calls[i]];
        Step(calls[i]);
        i := i + 1;
      }
      assert calls[..i] == calls;
    }

    method Step(c: Call)
      requires Valid()
      modifies this, nethash, nodes
      ensures Valid() && fresh(nodes - old(nodes)) && Whole() == After(old(Whole()), c)
    {
      match c {
        case DoScdb(_, _, _) => Aim(c);
        case DoExpire(_) => Sweep(c);
        case DoCleanup(_) => Sweep(c);
        case _ => Access(c);
      }
    }

    method Aim(c: Call)
      requires Valid() && c.DoScdb?
      modifies `scdbEntry, `scdbMac, `scdbIp, nodes
      ensures Valid() && Whole() == After(old(Whole()), c)
    {
      ScdbRefresh(c.source, c.ip, c.now);
      CachedIsKnown();
    }

    /** An insert or a lookup keeps every key, and so the short cut. */
    method Access(c: Call)
      requires Valid() && (c.DoInsert? || c.DoLookup?)
      modifies `entries, `nodes, `chains, nethash, nodes
      ensures Valid() && fresh(nodes - old(nodes)) && Whole() == After(old(Whole()), c)
    {
      CachedIsKnown();
      if c.DoInsert? {
        Insert(c.key, c.mac, c.now, c.room);
      } else {
        var hit, dest := LookupAndReplace(c.key, c.dest, c.now);
      }
    }

    method Sweep(c: Call)
      requires Valid() && (c.DoExpire? || c.DoCleanup?)
      modifies this, nethash, nodes
      ensures Valid() && nodes <= old(nodes) && Whole() == After(old(Whole()), c)
    {
      if c.DoExpire? {
        Expire(c.now);
      } else {
        Cleanup();
      }
    }

    /** Writes confined to one bucket leave the other chains alone. */
    twostate lemma OthersKept(slot: nat)
      requires old(Structured()) && |chains| == NAT25_HASH_SIZE && slot < NAT25_HASH_SIZE
      requires forall i :: 0 <= i < NAT25_HASH_SIZE && i != slot ==>
                 chains[i] == old(chains[i]) && nethash[i] == old(nethash[i])
      requires forall e :: e in old(nodes) && slotOf(e.networkAddr) != slot ==> e in nodes && SameLinks(e)
      requires ChainOk(slot)
      ensures ChainsOk(NAT25_HASH_SIZE)
    {
      OldChains(NAT25_HASH_SIZE);
      forall i | 0 <= i < NAT25_HASH_SIZE && i != slot
        ensures ChainOk(i)
      {
        assert old(ChainOk(i));
        ChainKept(i);
      }
      ChainsOkIff(NAT25_HASH_SIZE);
    }

    twostate lemma OldChains(n: nat)
      requires nethash.Length == NAT25_HASH_SIZE && old(|chains|) == NAT25_HASH_SIZE
      requires n <= NAT25_HASH_SIZE && old(ChainsOk(n))
      ensures forall i :: 0 <= i < n ==> old(ChainOk(i))
    {
      if n > 0 {
        OldChains(n - 1);
      }
    }
  }

  twostate predicate SameLinks(e: Entry)
    reads e
  {
    e.nextHash == old(e.nextHash) && e.pprevHash == old(e.pprevHash)
  }

  /** The driver's table: empty, and bucketed by the driver's hash. */
  method NewTable() returns (t: Table)
    ensures fresh(t) && fresh(t.nethash) && t.Valid() && t.Whole() == Bridge(map[], NO_MAC, Nothing)
    ensures forall k :: t.slotOf(k) == Hash(k)
  {
    t := new Table(Hash);
  }
}
