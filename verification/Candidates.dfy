/** The degen token candidates derived from a random seed, as the program and the crank each derive them. */
module Candidates {
  import opened Basics
  import opened Bytes

  /** SHA-256 is a parameter: any function that yields 32 bytes. */
  type Hash = seq<byte> -> seq<byte>

  ghost predicate IsHash(h: Hash) { forall m :: |h(m)| == 32 }

  const NONCES: nat := 0x1_0000_0000

  /** What one derivation depends on besides the rank and the nonce. */
  datatype Draw = Draw(randomness: seq<byte>, version: nat, poolLen: nat)

  function U32(v: nat): seq<byte> { EncodeLE(v % NONCES, 4) }

  function Payload(d: Draw, rank: nat, nonce: nat): seq<byte>
  {
    d.randomness + U32(d.version) + U32(rank) + U32(nonce)
  }

  function Index(h: Hash, d: Draw, rank: nat, nonce: nat): (i: nat)
    requires IsHash(h) && d.poolLen > 0
    ensures i < d.poolLen
  {
    DecodeLE(h(Payload(d, rank, nonce))[..4]) % d.poolLen
  }

  // ----- specification -----

  /** The least 32-bit nonce from `nonce` on whose index is not used yet. */
  function LeastNonce(h: Hash, d: Draw, used: seq<nat>, rank: nat, nonce: nat): Option<nat>
    requires IsHash(h) && d.poolLen > 0
    decreases NONCES - nonce
  {
    if nonce >= NONCES then None
    else if Index(h, d, rank, nonce) !in used then Some(nonce)
    else LeastNonce(h, d, used, rank, nonce + 1)
  }

  lemma {:induction false} LeastNonceIs(h: Hash, d: Draw, used: seq<nat>, rank: nat, nonce: nat)
    requires IsHash(h) && d.poolLen > 0
    ensures var r := LeastNonce(h, d, used, rank, nonce);
      if r.Some? then
        && nonce <= r.value < NONCES && Index(h, d, rank, r.value) !in used
        && forall n :: nonce <= n < r.value ==> Index(h, d, rank, n) in used
      else forall n :: nonce <= n < NONCES ==> Index(h, d, rank, n) in used
    decreases NONCES - nonce
  {
    hide Index;
    if nonce < NONCES && Index(h, d, rank, nonce) in used { LeastNonceIs(h, d, used, rank, nonce + 1); }
  }

  /** The first `count` indices; `None` when some rank runs out of nonces. */
  function Derive(h: Hash, d: Draw, count: nat): (r: Option<seq<nat>>)
    requires IsHash(h) && d.poolLen > 0
    ensures r.Some? ==> |r.value| == count
  {
    if count == 0 then Some([])
    else
      var before := Derive(h, d, count - 1);
      if before.None? then None
      else
        var n := LeastNonce(h, d, before.value, count - 1, 0);
        if n.None? then None else Some(before.value + [Index(h, d, count - 1, n.value)])
  }

  /** One more rank. */
  lemma DeriveNext(h: Hash, d: Draw, rank: nat)
    requires IsHash(h) && d.poolLen > 0
    ensures var before, after := Derive(h, d, rank), Derive(h, d, rank + 1);
      && (before.None? ==> after.None?)
      && (before.Some? ==>
            var n := LeastNonce(h, d, before.value, rank, 0);
            after == if n.None? then None else Some(before.value + [Index(h, d, rank, n.value)]))
  {
    hide Index, LeastNonce;
  }

  // ----- what is promised of the derived list -----

  ghost predicate Distinct(s: seq<nat>) { forall i, j :: 0 <= i < j < |s| ==> s[i] != s[j] }

  /** Indices point into the pool and no token is offered twice. */
  lemma {:induction false} DerivedAreDistinct(h: Hash, d: Draw, count: nat)
    requires IsHash(h) && d.poolLen > 0 && Derive(h, d, count).Some?
    ensures Distinct(Derive(h, d, count).value)
    ensures forall i :: 0 <= i < count ==> Derive(h, d, count).value[i] < d.poolLen
  {
    hide Index, LeastNonce;
    if count > 0 {
      DeriveNext(h, d, count - 1);
      DerivedAreDistinct(h, d, count - 1);
      LeastNonceIs(h, d, Derive(h, d, count - 1).value, count - 1, 0);
    }
  }

  /** A shorter derivation is a prefix of a longer one. */
  lemma {:induction false} DerivedPrefix(h: Hash, d: Draw, k: nat, count: nat)
    requires IsHash(h) && d.poolLen > 0 && k <= count && Derive(h, d, count).Some?
    ensures Derive(h, d, k) == Some(Derive(h, d, count).value[..k])
  {
    hide Derive, Index, LeastNonce;
    var s := Derive(h, d, count).value;
    if k < count {
      DeriveNext(h, d, count - 1);
      DerivedPrefix(h, d, k, count - 1);
      assert s[..count - 1] == Derive(h, d, count - 1).value;
      assert s[..k] == s[..count - 1][..k];
    } else {
      assert s[..k] == s;
    }
  }

  /** Each entry is the index at the least nonce that misses all entries before it. */
  lemma DerivedUsesLeastNonce(h: Hash, d: Draw, count: nat, rank: nat)
    requires IsHash(h) && d.poolLen > 0 && rank < count && Derive(h, d, count).Some?
    ensures var s := Derive(h, d, count).value;
            exists n :: 0 <= n < NONCES && s[rank] == Index(h, d, rank, n) && s[rank] !in s[..rank]
                        && forall m :: 0 <= m < n ==> Index(h, d, rank, m) in s[..rank]
  {
    hide Derive, Index, LeastNonce;
    DerivedPrefix(h, d, rank + 1, count);
    DerivedPrefix(h, d, rank, count);
    DeriveNext(h, d, rank);
    var s := Derive(h, d, count).value;
    LeastNonceIs(h, d, s[..rank], rank, 0);
    var n := LeastNonce(h, d, s[..rank], rank, 0).value;
    assert s[rank] == s[..rank + 1][rank] == Index(h, d, rank, n);
  }

  /** Different indices below a bound are at most as many as the bound. */
  lemma {:induction false} PigeonHole(s: seq<nat>, n: nat)
    requires Distinct(s) && forall i :: 0 <= i < |s| ==> s[i] < n
    ensures |s| <= n
    decreases n
  {
    if |s| > 0 {
      if n - 1 in s {
        var k :| 0 <= k < |s| && s[k] == n - 1;
        var t := s[..k] + s[k + 1..];
        assert forall i :: 0 <= i < |t| ==> t[i] == s[if i < k then i else i + 1];
        PigeonHole(t, n - 1);
      } else {
        PigeonHole(s, n - 1);
      }
    }
  }

  /** Asking for more candidates than the pool has always runs out of nonces. */
  lemma TooManyNeverDerived(h: Hash, d: Draw, count: nat)
    requires IsHash(h) && d.poolLen > 0 && count > d.poolLen
    ensures Derive(h, d, count).None?
  {
    if Derive(h, d, count).Some? {
      DerivedAreDistinct(h, d, count);
      PigeonHole(Derive(h, d, count).value, d.poolLen);
    }
  }

  // ----- what is hashed -----

  /** The message of a rank and a nonce: the 32 random bytes, then pool version, rank and nonce as 32-bit little-endian
      numbers. */
  ghost predicate Message(d: Draw, rank: nat, nonce: nat, m: seq<byte>)
  {
    && |m| == 44 && m[..32] == d.randomness
    && DecodeLE(m[32..36]) == d.version && DecodeLE(m[36..40]) == rank && DecodeLE(m[40..44]) == nonce
  }

  /** The first four bytes of the digest, as a little-endian number, point to `i` in the pool. */
  ghost predicate Points(h: Hash, d: Draw, rank: nat, nonce: nat, i: nat)
    requires IsHash(h) && d.poolLen > 0
  {
    exists m :: Message(d, rank, nonce, m) && i == DecodeLE(h(m)[..4]) % d.poolLen
  }

  ghost predicate PointsInto(h: Hash, d: Draw, rank: nat, nonce: nat, used: seq<nat>)
    requires IsHash(h) && d.poolLen > 0
  {
    exists i: nat :: Points(h, d, rank, nonce, i) && i in used
  }

  /** Nonce `n` is the first to point to something new at rank `r`, and entry `r` is what it points to. */
  ghost predicate Entry(h: Hash, d: Draw, s: seq<nat>, r: nat, n: nat)
    requires IsHash(h) && d.poolLen > 0 && r < |s|
  {
    && n < 0x1_0000_0000 && Points(h, d, r, n, s[r]) && s[r] !in s[..r]
    && forall m :: 0 <= m < n ==> PointsInto(h, d, r, m, s[..r])
  }

  ghost predicate HasEntry(h: Hash, d: Draw, s: seq<nat>, r: nat)
    requires IsHash(h) && d.poolLen > 0 && r < |s|
  {
    exists n: nat :: Entry(h, d, s, r, n)
  }

  /** The list of candidates, told by the hashed bytes alone. */
  ghost predicate Spelled(h: Hash, d: Draw, s: seq<nat>)
    requires IsHash(h) && d.poolLen > 0
  {
    forall r :: 0 <= r < |s| ==> HasEntry(h, d, s, r)
  }

  /** No 32-bit nonce points to anything new at the rank after the list. */
  ghost predicate Exhausted(h: Hash, d: Draw, s: seq<nat>)
    requires IsHash(h) && d.poolLen > 0
  {
    forall n :: 0 <= n < 0x1_0000_0000 ==> PointsInto(h, d, |s|, n, s)
  }

  /** The sizes of the source: 32 random bytes, a 32-bit pool version and 32-bit ranks. */
  predicate Sized(d: Draw, count: nat) { |d.randomness| == 32 && d.version <= U32_MAX && count <= U32_MAX + 1 }

  lemma IndexPoints(h: Hash, d: Draw, rank: nat, nonce: nat)
    requires IsHash(h) && d.poolLen > 0 && Sized(d, rank + 1) && nonce < NONCES
    ensures Points(h, d, rank, nonce, Index(h, d, rank, nonce))
  {
    hide U32, DecodeLE;
    Decoded(d.version);
    Decoded(rank);
    Decoded(nonce);
    MessageParts(d.randomness, U32(d.version), U32(rank), U32(nonce));
    assert Message(d, rank, nonce, Payload(d, rank, nonce));
  }

  lemma Decoded(v: nat)
    requires v < NONCES
    ensures |U32(v)| == 4 && DecodeLE(U32(v)) == v
  {
    Widths();
    DecodeEncode(v, 4);
  }

  lemma MessageParts(a: seq<byte>, b: seq<byte>, c: seq<byte>, e: seq<byte>)
    requires |a| == 32 && |b| == |c| == |e| == 4
    ensures var m := a + b + c + e; m[..32] == a && m[32..36] == b && m[36..40] == c && m[40..44] == e
  {
  }

  /** Every derived list is spelled by the hashes. */
  lemma DerivedIsSpelled(h: Hash, d: Draw, count: nat)
    requires IsHash(h) && d.poolLen > 0 && Sized(d, count) && Derive(h, d, count).Some?
    ensures Spelled(h, d, Derive(h, d, count).value)
  {
    hide Derive, Index, Points;
    var s := Derive(h, d, count).value;
    forall r | 0 <= r < |s| ensures HasEntry(h, d, s, r) {
      DerivedUsesLeastNonce(h, d, count, r);
      var n :| 0 <= n < NONCES && s[r] == Index(h, d, r, n) && s[r] !in s[..r]
               && forall m :: 0 <= m < n ==> Index(h, d, r, m) in s[..r];
      IndexPoints(h, d, r, n);
      forall m | 0 <= m < n ensures PointsInto(h, d, r, m, s[..r]) { IndexPoints(h, d, r, m); }
      assert Entry(h, d, s, r, n);
    }
  }

  /** If there is no derivation, some rank has run out of nonces. */
  lemma {:induction false} NotDerived(h: Hash, d: Draw, count: nat) returns (s: seq<nat>)
    requires IsHash(h) && d.poolLen > 0 && Sized(d, count) && Derive(h, d, count).None?
    ensures |s| < count && Spelled(h, d, s) && Exhausted(h, d, s)
  {
    hide Derive, Index, Points, Spelled, LeastNonce;
    DeriveNone(h, d);
    DeriveNext(h, d, count - 1);
    if Derive(h, d, count - 1).None? {
      s := NotDerived(h, d, count - 1);
    } else {
      s := Derive(h, d, count - 1).value;
      DerivedIsSpelled(h, d, count - 1);
      LeastNonceIs(h, d, s, count - 1, 0);
      forall n | 0 <= n < NONCES ensures PointsInto(h, d, |s|, n, s) { IndexPoints(h, d, count - 1, n); }
    }
  }

  /** Whoever knows the random bytes can tell the list: no two lists of a length are spelled by the same hashes. */
  lemma {:induction false} SpelledUnique(h: Hash, d: Draw, s: seq<nat>, s': seq<nat>)
    requires IsHash(h) && d.poolLen > 0 && Spelled(h, d, s) && Spelled(h, d, s') && |s| == |s'|
    ensures s == s'
  {
    if |s| > 0 {
      var r := |s| - 1;
      SpelledBefore(h, d, s, r);
      SpelledBefore(h, d, s', r);
      SpelledUnique(h, d, s[..r], s'[..r]);
      assert HasEntry(h, d, s, r) && HasEntry(h, d, s', r);
      var n: nat :| Entry(h, d, s, r, n);
      var n': nat :| Entry(h, d, s', r, n');
      hide Points;
      if n' < n { Contradicts(h, d, s', s[..r], r, n'); }
      if n < n' { Contradicts(h, d, s, s'[..r], r, n); }
      PointsUnique(h, d, r, n, s[r], s'[r]);
      assert s == s[..r] + [s[r]] && s' == s'[..r] + [s'[r]];
    }
  }

  lemma SpelledBefore(h: Hash, d: Draw, s: seq<nat>, k: nat)
    requires IsHash(h) && d.poolLen > 0 && Spelled(h, d, s) && k <= |s|
    ensures Spelled(h, d, s[..k])
  {
    hide Points;
    forall r | 0 <= r < k ensures HasEntry(h, d, s[..k], r) {
      assert HasEntry(h, d, s, r);
      var n: nat :| Entry(h, d, s, r, n);
      assert s[..k][..r] == s[..r];
      assert Entry(h, d, s[..k], r, n);
    }
  }

  /** A nonce that yields a new entry does not point into the entries before it. */
  lemma Contradicts(h: Hash, d: Draw, s: seq<nat>, used: seq<nat>, r: nat, n: nat)
    requires IsHash(h) && d.poolLen > 0 && r < |s| && Entry(h, d, s, r, n) && used == s[..r]
    ensures !PointsInto(h, d, r, n, used)
  {
    hide Points;
    forall i: nat | Points(h, d, r, n, i) ensures i == s[r] { PointsUnique(h, d, r, n, i, s[r]); }
  }

  lemma PointsUnique(h: Hash, d: Draw, rank: nat, nonce: nat, i: nat, j: nat)
    requires IsHash(h) && d.poolLen > 0 && Points(h, d, rank, nonce, i) && Points(h, d, rank, nonce, j)
    ensures i == j
  {
    var m :| Message(d, rank, nonce, m) && i == DecodeLE(h(m)[..4]) % d.poolLen;
    var m' :| Message(d, rank, nonce, m') && j == DecodeLE(h(m')[..4]) % d.poolLen;
    DecodeInjective(m[32..36], m'[32..36]);
    DecodeInjective(m[36..40], m'[36..40]);
    DecodeInjective(m[40..44], m'[40..44]);
    assert m == m[..32] + m[32..36] + m[36..40] + m[40..44];
    assert m' == m'[..32] + m'[32..36] + m'[36..40] + m'[40..44];
  }

  // ----- the program -----

  /** `derive_degen_candidate_indices`; `None` is the panic on nonce overflow. */
  method DeriveIndices(h: Hash, d: Draw, count: nat) returns (r: Option<seq<nat>>)
    requires IsHash(h) && d.poolLen > 0
    ensures r == Derive(h, d, count)
    ensures Sized(d, count) ==>
              if r.Some? then |r.value| == count && Spelled(h, d, r.value)
              else exists s :: |s| < count && Spelled(h, d, s) && Exhausted(h, d, s)
  {
    hide Derive, Index, LeastNonce, Spelled, Exhausted;
    var selected: seq<nat> := [];
    DeriveNone(h, d);
    for rank := 0 to count
      invariant Derive(h, d, rank) == Some(selected)
    {
      DeriveNext(h, d, rank);
      var nonce := 0;
      while true
        invariant 0 <= nonce < NONCES
        invariant LeastNonce(h, d, selected, rank, nonce) == LeastNonce(h, d, selected, rank, 0)
        decreases NONCES - nonce
      {
        LeastNonceStep(h, d, selected, rank, nonce);
        var index := Index(h, d, rank, nonce);
        if index !in selected { break; }
        if nonce + 1 == NONCES {
          NoneStays(h, d, rank + 1, count);
          if Sized(d, count) { var _ := NotDerived(h, d, count); }
          return None;
        }
        nonce := nonce + 1;
      }
      selected := selected + [Index(h, d, rank, nonce)];
    }
    r := Some(selected);
    if Sized(d, count) { DerivedIsSpelled(h, d, count); }
  }

  lemma DeriveNone(h: Hash, d: Draw)
    requires IsHash(h) && d.poolLen > 0
    ensures Derive(h, d, 0) == Some([])
  {
  }

  lemma LeastNonceStep(h: Hash, d: Draw, used: seq<nat>, rank: nat, nonce: nat)
    requires IsHash(h) && d.poolLen > 0 && nonce < NONCES
    ensures LeastNonce(h, d, used, rank, nonce) ==
            if Index(h, d, rank, nonce) !in used then Some(nonce)
            else if nonce + 1 == NONCES then None else LeastNonce(h, d, used, rank, nonce + 1)
  {
    hide Index;
  }

  /** Once a rank has run out, so have all longer derivations. */
  lemma {:induction false} NoneStays(h: Hash, d: Draw, k: nat, count: nat)
    requires IsHash(h) && d.poolLen > 0 && k <= count && Derive(h, d, k).None?
    ensures Derive(h, d, count).None?
  {
    hide Derive, Index, LeastNonce;
    if k < count {
      NoneStays(h, d, k, count - 1);
      DeriveNext(h, d, count - 1);
    }
  }

  /** `derive_degen_candidate_index_at_rank`: agrees with every longer derivation. */
  method IndexAtRank(h: Hash, d: Draw, rank: nat) returns (r: Option<nat>)
    requires IsHash(h) && d.poolLen > 0
    ensures r.Some? <==> Derive(h, d, rank + 1).Some?
    ensures forall count :: count > rank && Derive(h, d, count).Some? ==> r == Some(Derive(h, d, count).value[rank])
  {
    hide Derive;
    var s := DeriveIndices(h, d, rank + 1);
    forall count | count > rank && Derive(h, d, count).Some?
      ensures s.Some? && s.value[rank] == Derive(h, d, count).value[rank]
    {
      DerivedPrefix(h, d, rank + 1, count);
    }
    r := if s.Some? then Some(s.value[rank]) else None;
  }

  // ----- the crank -----

  /** `sha256`: the parts are copied one after another into one buffer and hashed. */
  method Sha256(h: Hash, parts: seq<seq<byte>>) returns (digest: seq<byte>)
    requires IsHash(h)
    ensures digest == h(Flatten(parts))
  {
    var payload: seq<byte> := [];
    for k := 0 to |parts|
      invariant payload == Flatten(parts[..k])
    {
      assert parts[..k + 1][..k] == parts[..k];
      payload := payload + parts[k];
    }
    assert parts[..|parts|] == parts;
    digest := h(payload);
  }

  lemma FourParts(a: seq<byte>, b: seq<byte>, c: seq<byte>, e: seq<byte>)
    ensures Flatten([a, b, c, e]) == a + b + c + e
  {
    assert [a][..0] == [];
    assert Flatten([a]) == a;
    assert [a, b][..1] == [a];
    assert Flatten([a, b]) == a + b;
    assert [a, b, c][..2] == [a, b];
    assert Flatten([a, b, c]) == a + b + c;
    assert [a, b, c, e][..3] == [a, b, c];
  }

  /** Nonces past 32 bits repeat the same hashes, so an endless search fails exactly when 2^32 nonces do. */
  lemma SearchBeyond32Bits(h: Hash, d: Draw, used: seq<nat>, rank: nat)
    requires IsHash(h) && d.poolLen > 0
    ensures LeastNonce(h, d, used, rank, 0).Some? <==> exists n: nat :: Index(h, d, rank, n) !in used
  {
    hide Index, LeastNonce;
    LeastNonceIs(h, d, used, rank, 0);
    if LeastNonce(h, d, used, rank, 0).None? {
      forall n: nat ensures Index(h, d, rank, n) in used {
        NonceWraps(h, d, rank, n);
        assert Index(h, d, rank, n % NONCES) in used;
      }
    }
  }

  lemma NonceWraps(h: Hash, d: Draw, rank: nat, n: nat)
    requires IsHash(h) && d.poolLen > 0
    ensures Index(h, d, rank, n) == Index(h, d, rank, n % NONCES)
  {
    assert (n % NONCES) % NONCES == n % NONCES;
  }

  /** The crank's inner loop: try nonces until the index is new. */
  method FirstUnused(h: Hash, d: Draw, used: set<nat>, rank: nat, ghost goal: nat) returns (index: nat)
    requires IsHash(h) && d.poolLen > 0
    requires Index(h, d, rank, goal) !in used && forall n :: 0 <= n < goal ==> Index(h, d, rank, n) in used
    ensures index == Index(h, d, rank, goal)
  {
    var nonce: nat := 0;
    while true
      invariant nonce <= goal
      decreases goal - nonce
    {
      var digest := Sha256(h, [d.randomness, U32(d.version), U32(rank), U32(nonce)]);
      FourParts(d.randomness, U32(d.version), U32(rank), U32(nonce));
      index := DecodeLE(digest[..4]) % d.poolLen;
      assert index == Index(h, d, rank, nonce);
      if index !in used { return; }
      nonce := nonce + 1;
    }
  }

  datatype Candidate = Candidate(rank: nat, index: nat, mint: string)

  /**
   `deriveCandidates`. Its search has no bound of its own: it returns exactly when every rank finds a
   nonce, and then lists the program's indices with the mints of the pool.
   */
  method DeriveCandidates(h: Hash, d: Draw, pool: seq<string>, count: nat) returns (out: seq<Candidate>)
    requires IsHash(h) && d.poolLen == |pool|
    requires |pool| > 0 ==> Derive(h, d, Min(count, |pool|)).Some?
    ensures |out| == Min(count, |pool|)
    ensures |pool| > 0 ==>
              forall k :: 0 <= k < |out| ==>
                && out[k].index == Derive(h, d, Min(count, |pool|)).value[k] < |pool|
                && out[k] == Candidate(k, out[k].index, pool[out[k].index])
    ensures |pool| > 0 && Sized(d, Min(count, |pool|)) ==>
              Spelled(h, d, seq(|out|, k requires 0 <= k < |out| => out[k].index))
  {
    hide Derive, Index, LeastNonce, Spelled;
    var limit := Min(count, |pool|);
    var used: set<nat> := {};
    out := [];
    ghost var picked: seq<nat> := [];
    if |pool| > 0 { DeriveNone(h, d); }
    for rank := 0 to limit
      invariant |out| == |picked| == rank && used == (set i | i in picked)
      invariant |pool| > 0 ==> Derive(h, d, rank) == Some(picked)
      invariant forall k :: 0 <= k < rank ==>
                  out[k].index == picked[k] < |pool| && out[k] == Candidate(k, picked[k], pool[picked[k]])
    {
      DerivedPrefix(h, d, rank + 1, limit);
      DeriveNext(h, d, rank);
      LeastNonceIs(h, d, picked, rank, 0);
      ghost var goal := LeastNonce(h, d, picked, rank, 0).value;
      var index := FirstUnused(h, d, used, rank, goal);
      used := used + {index};
      out := out + [Candidate(rank, index, pool[index])];
      picked := picked + [index];
    }
    assert seq(|out|, k requires 0 <= k < |out| => out[k].index) == picked;
    if |pool| > 0 && Sized(d, limit) { DerivedIsSpelled(h, d, limit); }
  }

  /** Anyone can re-derive the tokens: for a request the pool can serve, both derivations list the same indices. */
  method DeriveBoth(h: Hash, d: Draw, pool: seq<string>, count: nat)
    returns (program: Option<seq<nat>>, crank: seq<Candidate>)
    requires IsHash(h) && 0 < d.poolLen == |pool| && count <= |pool| && Derive(h, d, count).Some?
    ensures program.Some? && |crank| == |program.value| == count
    ensures forall k :: 0 <= k < count ==>
              crank[k].index == program.value[k] < |pool| && crank[k].mint == pool[program.value[k]]
  {
    program := DeriveIndices(h, d, count);
    crank := DeriveCandidates(h, d, pool, count);
  }
}
