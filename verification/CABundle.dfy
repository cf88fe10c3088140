/** mergeCABundle and UpdateVWCCABundle of internal/webhook/selfsigned: the read, merge, write of one shared
    caBundle. PEM text is the list of its blocks; X.509 is an expiry time. */
module CABundle {
  import opened Common
  import opened Wrappers

  /** notAfter is None for a certificate that does not parse. */
  datatype Block = Certificate(id: string, notAfter: Option<int>) | Foreign(kind: string)

  type Pem = seq<Block>

  /** A certificate that cannot be read is never held to be expired. */
  predicate Expired(b: Block, now: int) {
    b.Certificate? && b.notAfter.Some? && b.notAfter.value <= now
  }

  function Certificates(p: Pem): Pem {
    if p == [] then []
    else if p[|p| - 1].Certificate? then Certificates(p[..|p| - 1]) + [p[|p| - 1]]
    else Certificates(p[..|p| - 1])
  }

  function Survivors(p: Pem, removed: set<Block>, now: int): Pem {
    if p == [] then []
    else
      var init, b := Survivors(p[..|p| - 1], removed, now), p[|p| - 1];
      if b in removed || Expired(b, now) then init else init + [b]
  }

  /** First occurrences only. */
  function Dedup(p: Pem): Pem {
    if p == [] then []
    else
      var init, b := Dedup(p[..|p| - 1]), p[|p| - 1];
      if b in init then init else init + [b]
  }

  function Members(p: Pem): set<Block> { set b | b in p }

  function Merged(current: Pem, add: Pem, remove: Pem, now: int): Pem {
    Dedup(Survivors(Certificates(current), Members(Certificates(remove)), now) + Certificates(add))
  }

  method PemCertBlocks(data: Pem) returns (blocks: Pem)
    ensures blocks == Certificates(data)
  {
    blocks := [];
    var rest := data;
    while rest != []
      invariant |rest| <= |data| && rest == data[|data| - |rest|..]
      invariant blocks == Certificates(data[..|data| - |rest|])
      decreases |rest|
    {
      var k := |data| - |rest|;
      assert data[..k + 1][..k] == data[..k] && data[..k + 1][k] == rest[0];
      if rest[0].Certificate? { blocks := blocks + [rest[0]]; }
      rest := rest[1..];
    }
    assert data[..|data|] == data;
  }

  lemma SurvivorsAppend(p: Pem, removed: set<Block>, now: int, b: Block)
    ensures Survivors(p + [b], removed, now) ==
        if b in removed || Expired(b, now) then Survivors(p, removed, now) else Survivors(p, removed, now) + [b]
  {
    assert (p + [b])[..|p|] == p;
  }

  lemma DedupAppend(p: Pem, b: Block)
    ensures Dedup(p + [b]) == if b in Dedup(p) then Dedup(p) else Dedup(p) + [b]
  {
    assert (p + [b])[..|p|] == p;
  }

  /** The loop over the current blocks. */
  method KeepCurrent(blocks: Pem, removeSet: set<Block>, now: int) returns (out: Pem, seen: set<Block>)
    ensures (forall x :: x in seen <==> x in out) && out == Dedup(Survivors(blocks, removeSet, now))
  {
    seen, out := {}, [];
    ghost var kept: Pem := [];
    for i := 0 to |blocks|
      invariant kept == Survivors(blocks[..i], removeSet, now)
      invariant (forall x :: x in seen <==> x in out) && out == Dedup(kept)
    {
      var b := blocks[i];
      assert blocks[..i + 1] == blocks[..i] + [b];
      SurvivorsAppend(blocks[..i], removeSet, now, b);
      DedupAppend(kept, b);
      kept := if b in removeSet || Expired(b, now) then kept else kept + [b];
      if b in seen || b in removeSet { continue; }
      if Expired(b, now) { continue; }
      seen := seen + {b};
      out := out + [b];
    }
    assert blocks[..|blocks|] == blocks;
  }

  lemma DedupStep(kept: Pem, added: Pem, i: nat)
    requires i < |added|
    ensures var before := Dedup(kept + added[..i]);
            Dedup(kept + added[..i + 1]) == if added[i] in before then before else before + [added[i]]
  {
    assert kept + added[..i + 1] == (kept + added[..i]) + [added[i]];
    DedupAppend(kept + added[..i], added[i]);
  }

  /** The loop over the blocks to add. */
  method EnsureAdded(added: Pem, ghost kept: Pem, out0: Pem, seen0: set<Block>) returns (out: Pem)
    requires (forall x :: x in seen0 <==> x in out0) && out0 == Dedup(kept)
    ensures out == Dedup(kept + added)
  {
    var seen := seen0;
    out := out0;
    assert kept + added[..0] == kept;
    for i := 0 to |added|
      invariant (forall x :: x in seen <==> x in out) && out == Dedup(kept + added[..i])
    {
      var b := added[i];
      DedupStep(kept, added, i);
      if b in seen { continue; }
      seen := seen + {b};
      out := out + [b];
    }
    assert added[..|added|] == added;
  }

  method MergeCABundle(current: Pem, add: Pem, remove: Pem, now: int) returns (out: Pem)
    ensures out == Merged(current, add, remove, now)
  {
    var removeBlocks := PemCertBlocks(remove);
    var removeSet := set b | b in removeBlocks;
    var blocks := PemCertBlocks(current);
    var seen;
    out, seen := KeepCurrent(blocks, removeSet, now);
    var added := PemCertBlocks(add);
    out := EnsureAdded(added, Survivors(blocks, removeSet, now), out, seen);
  }

  // -- what a merge keeps ---------------------------------------------------------------

  lemma {:induction false} CertificateMembers(p: Pem, b: Block)
    ensures b in Certificates(p) <==> b in p && b.Certificate?
  {
    if p == [] {
    } else {
      CertificateMembers(p[..|p| - 1], b);
      assert p == p[..|p| - 1] + [p[|p| - 1]];
    }
  }

  lemma {:induction false} SurvivorMembers(p: Pem, removed: set<Block>, now: int, b: Block)
    ensures b in Survivors(p, removed, now) <==> b in p && b !in removed && !Expired(b, now)
  {
    if p == [] {
    } else {
      SurvivorMembers(p[..|p| - 1], removed, now, b);
      assert p == p[..|p| - 1] + [p[|p| - 1]];
    }
  }

  lemma {:induction false} DedupMembers(p: Pem, b: Block)
    ensures b in Dedup(p) <==> b in p
  {
    if p == [] {
    } else {
      DedupMembers(p[..|p| - 1], b);
      assert p == p[..|p| - 1] + [p[|p| - 1]];
    }
  }

  lemma {:induction false} DedupDistinct(p: Pem)
    ensures Distinct(Dedup(p))
  {
    if p == [] {
    } else {
      DedupDistinct(p[..|p| - 1]);
    }
  }

  /** The certificates of a PEM text. */
  function Trusts(p: Pem): set<Block> { set b | b in p && b.Certificate? }

  /** A merge on the sets trusted: everyone's live certificates stay, except the removed ones; add is there. */
  function MergedSet(current: set<Block>, add: set<Block>, remove: set<Block>, now: int): set<Block> {
    (set b | b in current && b !in remove && !Expired(b, now)) + add
  }

  lemma MergedMember(current: Pem, add: Pem, remove: Pem, now: int, b: Block)
    ensures b in Merged(current, add, remove, now) <==>
        (b in Trusts(current) && b !in Trusts(remove) && !Expired(b, now)) || b in Trusts(add)
  {
    var kept := Survivors(Certificates(current), Members(Certificates(remove)), now);
    CertificateMembers(current, b);
    CertificateMembers(add, b);
    CertificateMembers(remove, b);
    SurvivorMembers(Certificates(current), Members(Certificates(remove)), now, b);
    DedupMembers(kept + Certificates(add), b);
  }

  lemma MergeTrusts(current: Pem, add: Pem, remove: Pem, now: int)
    ensures Trusts(Merged(current, add, remove, now)) == MergedSet(Trusts(current), Trusts(add), Trusts(remove), now)
    ensures forall b <- Merged(current, add, remove, now) :: b.Certificate?
    ensures Distinct(Merged(current, add, remove, now))
  {
    DedupDistinct(Survivors(Certificates(current), Members(Certificates(remove)), now) + Certificates(add));
    var m := Merged(current, add, remove, now);
    forall b: Block
      ensures b in m <==> (b in Trusts(current) && b !in Trusts(remove) && !Expired(b, now)) || b in Trusts(add)
    {
      MergedMember(current, add, remove, now, b);
    }
  }

  /** Block by block: a certificate is in the bundle after a merge iff it was added, or was there before, is not
      removed, and is not known to end by now; one that cannot be read is kept. */
  lemma MergedIff(current: Pem, add: Pem, remove: Pem, now: int, b: Block)
    ensures b in Merged(current, add, remove, now) <==>
        b.Certificate? &&
        (b in add || (b in current && b !in remove && (b.notAfter == None || b.notAfter.value > now)))
  {
    MergedMember(current, add, remove, now, b);
  }

  lemma {:induction false} DistinctFixed(p: Pem)
    requires Distinct(p)
    ensures Dedup(p) == p
  {
    if p == [] {
    } else {
      var init := p[..|p| - 1];
      DistinctFixed(init);
      assert p == init + [p[|p| - 1]];
    }
  }

  lemma {:induction false} AllSurvive(p: Pem, removed: set<Block>, now: int)
    requires forall b <- p :: b !in removed && !Expired(b, now)
    ensures Survivors(p, removed, now) == p
  {
    if p == [] {
    } else {
      AllSurvive(p[..|p| - 1], removed, now);
      assert p == p[..|p| - 1] + [p[|p| - 1]];
    }
  }

  lemma {:induction false} AllCertificates(p: Pem)
    requires forall b <- p :: b.Certificate?
    ensures Certificates(p) == p
  {
    if p == [] {
    } else {
      AllCertificates(p[..|p| - 1]);
      assert p == p[..|p| - 1] + [p[|p| - 1]];
    }
  }

  lemma {:induction false} DedupOfKnown(p: Pem, q: Pem)
    requires Distinct(p) && forall b <- q :: b in p
    ensures Dedup(p + q) == p
  {
    if q == [] {
      assert p + q == p;
      DistinctFixed(p);
    } else {
      var init := q[..|q| - 1];
      DedupOfKnown(p, init);
      assert p + q == (p + init) + [q[|q| - 1]];
      DedupAppend(p + init, q[|q| - 1]);
    }
  }

  /** As sets, a merge repeated at the same time changes nothing more, whatever it adds and removes. */
  lemma MergedSetIdempotent(current: set<Block>, add: set<Block>, remove: set<Block>, now: int)
    ensures MergedSet(MergedSet(current, add, remove, now), add, remove, now) == MergedSet(current, add, remove, now)
  {
  }

  /** A fresh CA merged twice changes nothing more, byte for byte: the retry after an update that landed unnoticed
      does not write again. */
  lemma MergeIdempotent(current: Pem, add: Pem, remove: Pem, now: int)
    requires Trusts(add) !! Trusts(remove) && forall b <- Trusts(add) :: !Expired(b, now)
    ensures Merged(Merged(current, add, remove, now), add, remove, now) == Merged(current, add, remove, now)
  {
    var m := Merged(current, add, remove, now);
    MergeTrusts(current, add, remove, now);
    AllCertificates(m);
    forall b | b in m ensures b !in Members(Certificates(remove)) && !Expired(b, now) {
      assert b in Trusts(m);
      CertificateMembers(remove, b);
    }
    AllSurvive(m, Members(Certificates(remove)), now);
    forall b | b in Certificates(add) ensures b in m {
      CertificateMembers(add, b);
      assert b in Trusts(m);
    }
    DedupOfKnown(m, Certificates(add));
  }

  /** What the second of two merges would drop of what the first one adds. */
  ghost predicate Spared(add: set<Block>, otherAdd: set<Block>, otherRemove: set<Block>, now: int) {
    forall b <- add :: b in otherRemove || Expired(b, now) ==> b in otherAdd
  }

  /** Two pods' merges commute exactly when neither one drops what only the other one adds; in particular for
      unexpired additions that the other pod does not remove. */
  lemma MergesCommuteIff(current: set<Block>, a1: set<Block>, r1: set<Block>, a2: set<Block>, r2: set<Block>, now: int)
    ensures MergedSet(MergedSet(current, a1, r1, now), a2, r2, now) ==
        MergedSet(MergedSet(current, a2, r2, now), a1, r1, now)
        <==> Spared(a1, a2, r2, now) && Spared(a2, a1, r1, now)
  {
    var x := MergedSet(MergedSet(current, a1, r1, now), a2, r2, now);
    var y := MergedSet(MergedSet(current, a2, r2, now), a1, r1, now);
    assert a2 <= x && a1 <= y;
    if x == y {
      forall b | b in a1 && (b in r2 || Expired(b, now)) ensures b in a2 { assert b in x; }
      forall b | b in a2 && (b in r1 || Expired(b, now)) ensures b in a1 { assert b in y; }
    }
    if Spared(a1, a2, r2, now) && Spared(a2, a1, r1, now) {
      assert forall b :: b in x <==> b in y;
    }
  }

  /** The bootstrap union drops nothing that is still valid. */
  lemma CombineKeepsPeers(current: Pem, add: Pem, now: int, b: Block)
    requires b in Trusts(current) && !Expired(b, now)
    ensures b in Trusts(Merged(current, add, [], now))
  {
    MergeTrusts(current, add, [], now);
  }
}
