/** HeaderChain: the canonical index of the headers and the reads that use it. */
module HeaderChains {
  import opened Wrappers
  import opened Chains

  /** The index a marker batch leaves: deletions above the new head, overwritten entries, the head. */
  function Rewritten(canon: Index, stale: set<nat>, writes: Index, number: nat, hash: Hash): Index {
    ((canon - stale) + writes)[number := hash]
  }

  /** Between lo and hi the target's entries. */
  ghost predicate Overwrites(writes: Index, target: Index, lo: nat, hi: nat) {
    && (forall n: nat :: n in writes <==> lo < n < hi)
    && (forall n :: n in writes ==> n in target && writes[n] == target[n])
  }

  lemma RewrittenIsTarget(hs: Headers, canon: Index, head: Hash, target: Index, header: Header,
                          stale: set<nat>, writes: Index, lo: nat)
    requires Indexes(hs, canon, head) && Indexes(hs, target, header.hash) && hs[header.hash] == header
    requires stale == set n | n in canon && n > header.number
    requires lo < header.number && lo in canon && lo in target && canon[lo] == target[lo]
    requires Overwrites(writes, target, lo, header.number)
    ensures Rewritten(canon, stale, writes, header.number, header.hash) == target
  {
    hide Indexes;
    var r := Rewritten(canon, stale, writes, header.number, header.hash);
    IndexDomain(hs, canon, head);
    IndexDomain(hs, target, header.hash);
    IndexAgree(hs, canon, target, head, header.hash, lo);
    assert r.Keys == target.Keys;
  }

  lemma RewrittenGenesis(hs: Headers, canon: Index, head: Hash, target: Index, header: Header, stale: set<nat>)
    requires Indexes(hs, canon, head) && Indexes(hs, target, header.hash) && hs[header.hash] == header
    requires stale == (set n | n in canon && n > header.number) && header.number == 0
    ensures Rewritten(canon, stale, map[], header.number, header.hash) == target
  {
  }

  lemma RootFacts(hs: Headers, genesis: Hash)
    requires Rooted(hs, genesis)
    ensures ZERO !in hs && Linked(hs) && forall h :: h in hs ==> hs[h].number < MAX_UINT64
    ensures forall h :: h in hs && hs[h].number == 0 ==> hs[h].parent == ZERO
  {
  }

  lemma StoreFits(hs: Headers, genesis: Hash, header: Header)
    requires Rooted(hs, genesis) && header.hash != ZERO && header.number < MAX_UINT64
    requires header.hash in hs ==> hs[header.hash] == header
    requires header.hash == genesis || (header.parent in hs && header.number == hs[header.parent].number + 1)
    ensures Rooted(hs[header.hash := header], genesis)
  {
  }

  class HeaderChain {
    const genesis: Hash
    var headers: Headers
    var canon: Index
    var current: Hash
    var cache: set<Hash>

    ghost predicate Valid()
      reads this
    {
      Rooted(headers, genesis) && Indexes(headers, canon, current) && cache <= headers.Keys
    }

    constructor (genesis: Header)
      requires genesis.hash != ZERO && genesis.number == 0 && genesis.parent == ZERO
      ensures Valid() && headers == map[genesis.hash := genesis] && current == genesis.hash
    {
      this.genesis := genesis.hash;
      headers := map[genesis.hash := genesis];
      canon := map[0 := genesis.hash];
      current := genesis.hash;
      cache := {};
    }

    /** A cached header is found whatever the number; otherwise hash and number must agree. */
    method GetHeader(hash: Hash, number: nat) returns (header: Option<Header>)
      requires cache <= headers.Keys
      modifies `cache
      ensures cache <= headers.Keys
      ensures header.Some? <==> hash in headers && (hash in old(cache) || headers[hash].number == number)
      ensures header.Some? ==> header.value == headers[hash] && hash in cache
      ensures hash in old(cache) || header.None? ==> cache == old(cache)
    {
      if hash in cache {
        return Some(headers[hash]);
      }
      if hash !in headers || headers[hash].number != number {
        return None;
      }
      Remember(hash);
      return Some(headers[hash]);
    }

    /** Adding to the cache may evict other entries. */
    method Remember(hash: Hash)
      requires cache <= headers.Keys && hash in headers
      modifies `cache
      ensures hash in cache && cache <= old(cache) + {hash} && cache <= headers.Keys
    {
      var kept :| kept <= cache;
      cache := kept + {hash};
    }

    method StaleAbove(number: nat) returns (stale: set<nat>)
      requires Indexes(headers, canon, current) && Linked(headers)
      ensures stale == set n | n in canon && n > number
    {
      hide Indexes;
      IndexDomain(headers, canon, current);
      stale := {};
      var i := number + 1;
      while ReadCanonicalHash(canon, i) != ZERO
        invariant i > number && stale == set n | n in canon && number < n < i
        decreases headers[current].number + 1 - i
      {
        stale := stale + {i};
        i := i + 1;
      }
      if i in canon {
        IndexEntry(headers, canon, current, i);
      }
    }

    /** Walks up from the parent of the header until it meets the index, which it does not change. */
    method StaleBelow(header: Header, ghost target: Index) returns (writes: Index, ghost lo: nat)
      requires Valid() && header.hash in headers && headers[header.hash] == header
      requires Indexes(headers, target, header.hash)
      modifies `cache
      ensures Valid()
      ensures header.number == 0 ==> writes == map[]
      ensures header.number > 0 ==>
                && lo < header.number && lo in canon && lo in target && canon[lo] == target[lo]
                && Overwrites(writes, target, lo, header.number)
    {
      hide Indexes, Rooted;
      writes := map[];
      var headHash, headNumber := header.parent, Pred(header.number);
      IndexDomain(headers, canon, current);
      IndexDomain(headers, target, header.hash);
      RootFacts(headers, genesis);
      if header.number > 0 {
        IndexEntry(headers, target, header.hash, header.number);
        IndexEntry(headers, target, header.hash, headNumber);
        IndexRoot(headers, genesis, canon, current);
        IndexRoot(headers, genesis, target, header.hash);
      }
      var headHeader := GetHeader(headHash, headNumber);
      while ReadCanonicalHash(canon, headNumber) != headHash
        invariant Valid()
        invariant header.number == 0 ==> headNumber == MAX_UINT64 && headHash == ZERO && writes == map[]
        invariant header.number > 0 ==>
                    && headNumber < header.number && headNumber in target && headHash == target[headNumber]
                    && headHash in headers && headers[headHash].number == headNumber
                    && headHeader == Some(headers[headHash])
                    && Overwrites(writes, target, headNumber, header.number)
        decreases headNumber
      {
        IndexEntry(headers, target, header.hash, headNumber);
        writes := writes[headNumber := headHash];
        headHash := headHeader.value.parent;
        headNumber := Pred(headHeader.value.number);
        IndexEntry(headers, target, header.hash, headNumber);
        headHeader := GetHeader(headHash, headNumber);
      }
      lo := headNumber;
    }

    /** Storing a header whose parent is known, or the genesis again, keeps the store parent-closed. */
    ghost predicate Fits(header: Header)
      reads this
    {
      && header.hash != ZERO && header.number < MAX_UINT64
      && (header.hash in headers ==> headers[header.hash] == header)
      && (header.hash == genesis || (header.parent in headers && header.number == headers[header.parent].number + 1))
    }

    /** Makes the stored header the head of the index. */
    method Reroute(header: Header)
      requires Valid() && header.hash in headers && headers[header.hash] == header
      modifies `canon, `current, `cache
      ensures Valid() && current == header.hash
    {
      hide Indexes, Rooted, Overwrites, Rewritten;
      ghost var target := IndexOf(headers, genesis, header.hash);
      RootFacts(headers, genesis);
      var stale := StaleAbove(header.number);
      var writes;
      ghost var lo;
      writes, lo := StaleBelow(header, target);
      if header.number > 0 {
        RewrittenIsTarget(headers, canon, current, target, header, stale, writes, lo);
      } else {
        RewrittenGenesis(headers, canon, current, target, header, stale);
      }
      canon := Rewritten(canon, stale, writes, header.number, header.hash);
      current := header.hash;
    }

    /**
     * Stores the header and, unless it is at the head's own height and loses the coin toss, makes its
     * ancestor path the canonical index.
     */
    method WriteHeader(header: Header, heads: bool) returns (canonical: bool)
      requires Valid() && Fits(header)
      modifies this
      ensures Valid() && headers == old(headers)[header.hash := header]
      ensures canonical <==> header.number != old(headers[current].number) || heads
      ensures canonical ==> current == header.hash
      ensures !canonical ==> current == old(current) && canon == old(canon)
    {
      hide Indexes, Rooted;
      IndexDomain(headers, canon, current);
      var head := headers[current].number;
      StoreFits(headers, genesis, header);
      StoreKeepsIndex(headers, headers[header.hash := header], canon, current);
      headers := headers[header.hash := header];
      var reorg := header.number > head;
      if !reorg {
        if header.number < head {
          reorg := true;
        } else if header.number == head {
          reorg := heads;
        }
      }
      if reorg {
        Reroute(header);
      }
      Remember(header.hash);
      canonical := reorg;
    }

    /** After k parent pointers the walk from hash is done or stands on the canonical chain. */
    ghost predicate Meets(hash: Hash, number: nat, ancestor: nat, k: nat)
      requires ancestor <= number
      reads `headers, `canon
    {
      k == ancestor || (k < ancestor && ReadCanonicalHash(canon, number - k) == Ancestor(headers, hash, k))
    }

    /** The counter went down by the steps needed to meet the canonical chain, or to zero. */
    ghost predicate Counted(hash: Hash, number: nat, ancestor: nat, most: nat, found: Hash, left: nat)
      requires ancestor <= number
      reads `headers, `canon
    {
      if found == ZERO then left == 0
      else
        && left <= most && Meets(hash, number, ancestor, most - left)
        && forall j :: 0 <= j < most - left ==> !Meets(hash, number, ancestor, j)
    }

    /** The hash is not stored, or the number is not its own. */
    ghost predicate Lost(hash: Hash, number: nat)
      reads `headers
    {
      hash in headers ==> headers[hash].number != number
    }

    /** How many parent pointers lead from the hash out of the stored headers. */
    ghost function Depth(hash: Hash): nat
      reads `headers
    {
      if hash in headers then headers[hash].number + 1 else 0
    }

    /** The first k headers on the way are cached. */
    ghost predicate CachedTo(hash: Hash, k: nat, cached: set<Hash>)
      reads `headers
    {
      forall j :: 0 <= j < k ==> Ancestor(headers, hash, j) in cached
    }

    /** A lost walk leaves the stored headers and takes the zero hash for a canonical block above the head. */
    ghost predicate Strays(hash: Hash, number: nat, most: nat, cached: set<Hash>)
      requires current in headers
      reads `headers, `current
    {
      var d := Depth(hash);
      && CachedTo(hash, d, cached) && d <= most
      && Ancestor(headers, hash, d) == ZERO && headers[current].number < number - d
    }

    /** What the walk from a lost hash finds: it goes by cached headers only. */
    ghost function LostResult(hash: Hash, number: nat, ancestor: nat, most: nat, cached: set<Hash>): Hash
      requires ancestor <= number && current in headers
      reads `headers, `canon, `current
    {
      if ancestor <= Depth(hash) then
        if CachedTo(hash, ancestor, cached) && ancestor <= most then Ancestor(headers, hash, ancestor) else ZERO
      else if Strays(hash, number, most, cached) then ReadCanonicalHash(canon, number - ancestor)
      else ZERO
    }

    /** A lost walk meets the canonical chain only once it is out of the stored headers. */
    lemma LostStep(hash: Hash, number: nat, k: nat)
      requires Valid() && Lost(hash, number) && k <= Depth(hash) && k < number
      ensures var h := Ancestor(headers, hash, k);
              if k < Depth(hash)
              then h in headers && headers[h].number != number - k && ReadCanonicalHash(canon, number - k) != h
              else h !in headers
                   && (ReadCanonicalHash(canon, number - k) == h <==> h == ZERO && headers[current].number < number - k)
    {
      hide Indexes, Rooted, Ancestor;
      IndexDomain(headers, canon, current);
      RootFacts(headers, genesis);
      AncestorZero(headers, hash);
      if number - k in canon {
        IndexEntry(headers, canon, current, number - k);
      }
      if hash in headers {
        PathOut(headers, genesis, hash, k);
      }
    }

    lemma LostHit(hash: Hash, number: nat, ancestor: nat, most: nat, cached: set<Hash>, k: nat)
      requires Valid() && Lost(hash, number) && k <= Depth(hash) && k < ancestor <= number && k <= most
      requires CachedTo(hash, k, cached) && ReadCanonicalHash(canon, number - k) == Ancestor(headers, hash, k)
      ensures LostResult(hash, number, ancestor, most, cached) == ReadCanonicalHash(canon, number - ancestor)
    {
      hide Indexes, Rooted, Ancestor, CachedTo;
      LostStep(hash, number, k);
    }

    lemma LostMiss(hash: Hash, number: nat, ancestor: nat, most: nat, cached: set<Hash>, k: nat)
      requires Valid() && Lost(hash, number) && k <= Depth(hash) && k < ancestor <= number
      requires ReadCanonicalHash(canon, number - k) != Ancestor(headers, hash, k)
      requires k == most || (k < Depth(hash) ==> Ancestor(headers, hash, k) !in cached)
      ensures LostResult(hash, number, ancestor, most, cached) == ZERO
    {
      hide Indexes, Rooted, Ancestor;
      LostStep(hash, number, k);
    }

    /** Walks up to the canonical chain and takes the rest of the way through the index. */
    method Climb(hash: Hash, number: nat, ancestor: nat, maxNonCanonical: nat)
        returns (found: Hash, at: nat, left: nat)
      requires Valid() && ancestor <= number
      modifies `cache
      ensures Valid()
      ensures !Lost(hash, number) ==>
                (found != ZERO <==> exists k :: 0 <= k <= maxNonCanonical && Meets(hash, number, ancestor, k))
      ensures !Lost(hash, number) && found != ZERO ==> found == Ancestor(headers, hash, ancestor)
      ensures !Lost(hash, number) ==> Counted(hash, number, ancestor, maxNonCanonical, found, left)
      ensures Lost(hash, number) ==> found == LostResult(hash, number, ancestor, maxNonCanonical, old(cache))
      ensures found != ZERO ==> at == number - ancestor
    {
      hide Indexes, Rooted, Ancestor, LostResult;
      IndexDomain(headers, canon, current);
      RootFacts(headers, genesis);
      var h, n, a := hash, number, ancestor;
      left := maxNonCanonical;
      ghost var k, lost := 0, Lost(hash, number);
      AncestorZero(headers, hash);
      while a != 0
        invariant Valid() && k <= ancestor && a == ancestor - k && n == number - k && left == maxNonCanonical - k
        invariant left >= 0 && h == Ancestor(headers, hash, k)
        invariant !lost ==> h in headers && headers[h].number == n
        invariant !lost ==> forall j :: 0 <= j < k ==> !Meets(hash, number, ancestor, j)
        invariant lost ==> cache == old(cache) && k <= Depth(hash) && CachedTo(hash, k, old(cache))
        decreases a
      {
        if lost {
          LostStep(hash, number, k);
        }
        if ReadCanonicalHash(canon, n) == h {
          if lost {
            LostHit(hash, number, ancestor, maxNonCanonical, old(cache), k);
          } else {
            CanonicalHit(hash, number, ancestor, k);
          }
          return ReadCanonicalHash(canon, n - a), n - a, left;
        }
        assert !lost ==> !Meets(hash, number, ancestor, k);
        if left == 0 {
          if lost {
            LostMiss(hash, number, ancestor, maxNonCanonical, old(cache), k);
          }
          return ZERO, 0, left;
        }
        left, a := left - 1, a - 1;
        var header := GetHeader(h, n);
        if header.None? {
          LostMiss(hash, number, ancestor, maxNonCanonical, old(cache), k);
          return ZERO, 0, left;
        }
        if !lost {
          RootedAncestor(headers, genesis, hash, k + 1);
        }
        AncestorSum(headers, hash, k, 1);
        AncestorOne(headers, h);
        h := header.value.parent;
        n := n - 1;
        k := k + 1;
      }
      assert !lost ==> Meets(hash, number, ancestor, k);
      if lost {
        LostDone(hash, number, ancestor, maxNonCanonical, old(cache));
      }
      return h, n, left;
    }

    lemma LostDone(hash: Hash, number: nat, ancestor: nat, most: nat, cached: set<Hash>)
      requires Valid() && ancestor <= number && ancestor <= Depth(hash) && ancestor <= most
      requires CachedTo(hash, ancestor, cached)
      ensures LostResult(hash, number, ancestor, most, cached) == Ancestor(headers, hash, ancestor)
    {
    }

    /** What the index gives for an entry it has. */
    lemma CanonicalHit(hash: Hash, number: nat, ancestor: nat, k: nat)
      requires Valid() && k < ancestor <= number && !Lost(hash, number)
      requires ReadCanonicalHash(canon, number - k) == Ancestor(headers, hash, k)
      ensures Meets(hash, number, ancestor, k)
      ensures ReadCanonicalHash(canon, number - ancestor) == Ancestor(headers, hash, ancestor) != ZERO
    {
      hide Indexes, Rooted, Ancestor;
      IndexDomain(headers, canon, current);
      RootFacts(headers, genesis);
      RootedAncestor(headers, genesis, hash, k);
      RootedAncestor(headers, genesis, hash, ancestor);
      CanonAncestor(headers, canon, current, number - k, ancestor - k);
      AncestorSum(headers, hash, k, ancestor - k);
    }

    /**
     * The ancestor that many parent pointers up. For a block given with its own number it is found exactly
     * when the branch meets the canonical chain, or ends, within the allowed number of steps. For any
     * other pair the walk goes by cached headers only, and what it finds is wrong exactly when it leaves the
     * stored headers above the head: there the zero hash reads as canonical.
     */
    method GetAncestor(hash: Hash, number: nat, ancestor: nat, maxNonCanonical: nat)
        returns (found: Hash, at: nat, left: nat)
      requires Valid()
      modifies `cache
      ensures Valid()
      ensures ancestor > number ==> found == ZERO && at == 0
      ensures found != ZERO ==> at == number - ancestor
      ensures hash in headers && found != ZERO && ancestor <= headers[hash].number ==>
                found == Ancestor(headers, hash, ancestor)
      ensures !Lost(hash, number) && ancestor <= number ==>
                (found != ZERO <==>
                  ancestor == 1 || exists k :: 0 <= k <= maxNonCanonical && Meets(hash, number, ancestor, k))
      ensures !Lost(hash, number) && ancestor <= number && ancestor != 1 ==>
                Counted(hash, number, ancestor, maxNonCanonical, found, left)
      ensures Lost(hash, number) && ancestor <= number && ancestor != 1 ==>
                found == LostResult(hash, number, ancestor, maxNonCanonical, old(cache))
      ensures Lost(hash, number) && ancestor == 1 <= number ==>
                found == if hash in headers && hash in old(cache) then Ancestor(headers, hash, 1) else ZERO
      ensures hash !in headers && hash != ZERO && ancestor <= number ==>
                found == if ancestor == 0 then hash else ZERO
      ensures hash in headers || hash == ZERO ==>
                (found != ZERO && found != Ancestor(headers, hash, ancestor) <==>
                  && Lost(hash, number) && Depth(hash) < ancestor <= number && ancestor >= 2
                  && Strays(hash, number, maxNonCanonical, old(cache)) && number <= headers[current].number + ancestor)
    {
      hide Indexes, Rooted, Ancestor, LostResult, Counted, Meets, Strays;
      IndexDomain(headers, canon, current);
      RootFacts(headers, genesis);
      left := maxNonCanonical;
      WrongExactly(hash, number, ancestor, maxNonCanonical, cache);
      if hash in headers {
        RootedAncestor(headers, genesis, hash, 0);
        AncestorOne(headers, hash);
        if headers[hash].number >= 1 {
          RootedAncestor(headers, genesis, hash, 1);
        }
      }
      if ancestor > number {
        return ZERO, 0, left;
      }
      if ancestor == 1 {
        var header := GetHeader(hash, number);
        if header.Some? {
          return header.value.parent, number - 1, left;
        }
        return ZERO, 0, left;
      }
      found, at, left := Climb(hash, number, ancestor, maxNonCanonical);
    }

    /** When the result of a lost walk is not the ancestor. */
    lemma WrongExactly(hash: Hash, number: nat, ancestor: nat, most: nat, cached: set<Hash>)
      requires Valid()
      ensures ancestor <= number && hash !in headers && hash != ZERO ==>
                LostResult(hash, number, ancestor, most, cached) == if ancestor == 0 then hash else ZERO
      ensures hash in headers || hash == ZERO ==>
                ancestor >= Depth(hash) ==> Ancestor(headers, hash, ancestor) == ZERO
      ensures ancestor <= number && (hash in headers || hash == ZERO) && Lost(hash, number) ==>
                var r := LostResult(hash, number, ancestor, most, cached);
                && (r != ZERO && ancestor <= Depth(hash) ==> r == Ancestor(headers, hash, ancestor))
                && (r != ZERO && r != Ancestor(headers, hash, ancestor) <==>
                      && Depth(hash) < ancestor && Strays(hash, number, most, cached)
                      && number <= headers[current].number + ancestor)
    {
      hide Indexes, Rooted, Ancestor;
      IndexDomain(headers, canon, current);
      RootFacts(headers, genesis);
      AncestorZero(headers, hash);
      if hash in headers {
        PathOut(headers, genesis, hash, Depth(hash));
      }
      if ancestor >= Depth(hash) && (hash in headers || hash == ZERO) {
        AncestorStuck(headers, hash, Depth(hash), ancestor);
      }
      if ancestor <= number && number - ancestor in canon {
        IndexEntry(headers, canon, current, number - ancestor);
      }
    }
  }

  /** The parents of a stored header count down to the genesis and then out to the zero hash. */
  lemma PathOut(hs: Headers, genesis: Hash, h: Hash, k: nat)
    requires Rooted(hs, genesis) && h in hs && k <= hs[h].number + 1
    ensures if k <= hs[h].number then Ancestor(hs, h, k) in hs && hs[Ancestor(hs, h, k)].number == hs[h].number - k
            else Ancestor(hs, h, k) == ZERO && ZERO !in hs
  {
    hide Ancestor;
    RootedAncestor(hs, genesis, h, if k <= hs[h].number then k else hs[h].number);
    if k > hs[h].number {
      AncestorNext(hs, h, hs[h].number);
      hide Rooted;
      RootFacts(hs, genesis);
    }
  }

  /** A two-step ancestor of the zero hash above the head is "found" on a chain of the genesis alone. */
  method ZeroHashMistaken() returns (found: Hash)
    ensures found != ZERO
  {
    var chain := new HeaderChain(Header(7, 0, ZERO));
    var at, left;
    found, at, left := chain.GetAncestor(ZERO, 2, 2, 0);
  }

  /** The cached genesis, given with number 3, is found to be its own third ancestor. */
  method WrongNumberMistaken() returns (found: Hash)
    ensures found == 7
  {
    var chain := new HeaderChain(Header(7, 0, ZERO));
    var cached := chain.GetHeader(7, 0);
    ghost var cache := chain.cache;
    hide Rooted;
    AncestorZero(chain.headers, 7);
    AncestorOne(chain.headers, 7);
    hide Ancestor;
    assert chain.Strays(7, 3, 5, cache) && chain.canon[0] == 7;
    hide Indexes;
    var at, left;
    found, at, left := chain.GetAncestor(7, 3, 3, 5);
  }
}
