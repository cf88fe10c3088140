/** internal/storage/key.go and the filename filter of internal/storage/store.go:
    how a revision is addressed on disk. */
module Revision {
  import opened Strings

  const TARBALL := ".tar.gz"
  const TEMPORARY := ".tar.gz.tmp"

  function ReplaceColons(s: string): (r: string)
    ensures |r| == |s|
    ensures forall i :: 0 <= i < |s| ==> r[i] == if s[i] == ':' then '-' else s[i]
  {
    seq(|s|, i requires 0 <= i < |s| => if s[i] == ':' then '-' else s[i])
  }

  function RevisionFilename(revision: string): string {
    ReplaceColons(revision) + TARBALL
  }

  predicate IsLowerAlnum(c: char) { '0' <= c <= '9' || 'a' <= c <= 'z' }

  predicate IsHexDigit(c: char) { '0' <= c <= '9' || 'a' <= c <= 'f' || 'A' <= c <= 'F' }

  predicate LowerAlnum(s: string) { s != "" && forall c <- s :: IsLowerAlnum(c) }

  predicate Hex(s: string) { s != "" && forall c <- s :: IsHexDigit(c) }

  /** The canonical "<algo>:<hex>" shape. */
  predicate ValidDigest(revision: string) {
    var i := IndexOf(revision, ':');
    i < |revision| && LowerAlnum(revision[..i]) && Hex(revision[i + 1..])
  }

  predicate ArtifactStem(rev: string) {
    var i := IndexOf(rev, '-');
    if i < |rev| then LowerAlnum(rev[..i]) && Hex(rev[i + 1..]) else Hex(rev)
  }

  predicate LooksLikeOurArtifactFilename(name: string) {
    if HasSuffix(name, TEMPORARY) then ArtifactStem(name[..|name| - |TEMPORARY|])
    else HasSuffix(name, TARBALL) && ArtifactStem(name[..|name| - |TARBALL|])
  }

  /** A name Prune collects: ours, and not the residue of an unfinished Put. */
  predicate IsCandidateName(name: string) {
    LooksLikeOurArtifactFilename(name) && !HasSuffix(name, ".tmp")
  }

  ghost predicate HexRun(s: string) { s != "" && forall c <- s :: c in "0123456789abcdefABCDEF" }

  ghost predicate Joined(stem: string, algo: string, hex: string) { stem == algo + "-" + hex }

  predicate DigitOrLower(c: char) { IsDigit(c) || IsLower(c) }

  /** stem is a run of hex digits, or such a run after a name of lower-case letters and digits and a dash. */
  ghost predicate StemShape(stem: string) {
    || HexRun(stem)
    || exists algo, hex :: Joined(stem, algo, hex) && HexRun(hex) && algo != "" &&
         forall c <- algo :: DigitOrLower(c)
  }

  /** name is such a stem with this ending. */
  ghost predicate Shaped(name: string, ending: string) {
    HasSuffix(name, ending) && StemShape(name[..|name| - |ending|])
  }

  lemma HexDigits(c: char)
    ensures IsHexDigit(c) <==> c in "0123456789abcdefABCDEF"
  {
    var s := "0123456789abcdefABCDEF";
    if '0' <= c <= '9' { assert s[c as int - '0' as int] == c; }
    if 'a' <= c <= 'f' { assert s[10 + (c as int - 'a' as int)] == c; }
    if 'A' <= c <= 'F' { assert s[16 + (c as int - 'A' as int)] == c; }
  }

  lemma LowerAlnums(c: char)
    ensures IsLowerAlnum(c) <==> DigitOrLower(c)
  {
    DigitRange(c);
    LowerRange(c);
  }

  lemma HexIff(s: string)
    ensures Hex(s) <==> HexRun(s)
    ensures Hex(s) ==> '-' !in s
  {
    forall c ensures IsHexDigit(c) <==> c in "0123456789abcdefABCDEF" { HexDigits(c); }
  }

  lemma LowerAlnumIff(s: string)
    ensures LowerAlnum(s) <==> s != "" && forall c <- s :: DigitOrLower(c)
    ensures LowerAlnum(s) ==> '-' !in s
  {
    forall c ensures IsLowerAlnum(c) <==> DigitOrLower(c) { LowerAlnums(c); }
  }

  lemma StemIff(stem: string)
    ensures ArtifactStem(stem) <==> StemShape(stem)
  {
    var i := IndexOf(stem, '-');
    NotBeforeIndex(stem, '-');
    HexIff(stem);
    if i < |stem| {
      assert Joined(stem, stem[..i], stem[i + 1..]);
      LowerAlnumIff(stem[..i]);
      HexIff(stem[i + 1..]);
    }
    if algo, hex :| Joined(stem, algo, hex) && HexRun(hex) && algo != "" &&
                    forall c <- algo :: DigitOrLower(c) {
      LowerAlnumIff(algo);
      HexIff(hex);
      assert stem == algo + ['-'] + hex;
      CutIs(algo, hex, '-');
    }
  }

  lemma EndsDiffer(name: string)
    ensures !(HasSuffix(name, ".tar.gz") && HasSuffix(name, ".tar.gz.tmp"))
  {
    if HasSuffix(name, ".tar.gz") && HasSuffix(name, ".tar.gz.tmp") {
      SuffixLastChar(name, ".tar.gz");
      SuffixLastChar(name, ".tar.gz.tmp");
    }
  }

  lemma EndsDifferTmp(name: string)
    ensures !(HasSuffix(name, ".tar.gz") && HasSuffix(name, ".tmp"))
  {
    if HasSuffix(name, ".tar.gz") && HasSuffix(name, ".tmp") {
      SuffixLastChar(name, ".tar.gz");
      SuffixLastChar(name, ".tmp");
    }
  }

  /** Which names Prune and Sweep take for ours: exactly those of the shape, with the one ending and with the other. */
  lemma OursIff(name: string)
    ensures IsCandidateName(name) <==> Shaped(name, ".tar.gz")
    ensures HasSuffix(name, TEMPORARY) && LooksLikeOurArtifactFilename(name) <==> Shaped(name, ".tar.gz.tmp")
  {
    if HasSuffix(name, TEMPORARY) {
      StemIff(name[..|name| - |TEMPORARY|]);
      EndsDiffer(name);
      SuffixOfSuffix(name, TEMPORARY, ".tmp");
    } else if HasSuffix(name, TARBALL) {
      StemIff(name[..|name| - |TARBALL|]);
      if HasSuffix(name, ".tmp") {
        EndsDifferTmp(name);
      }
    }
  }

  predicate ColonVariants(a: string, b: string) {
    && |a| == |b|
    && forall i :: 0 <= i < |a| ==> a[i] == b[i] || (a[i] == ':' && b[i] == '-') || (a[i] == '-' && b[i] == ':')
  }

  /** Two revisions share a file exactly when they differ only in ':' against '-'. */
  lemma FilenameCollision(a: string, b: string)
    ensures RevisionFilename(a) == RevisionFilename(b) <==> ColonVariants(a, b)
  {
    var x, y := ReplaceColons(a), ReplaceColons(b);
    if ColonVariants(a, b) {
      assert x == y;
    }
    if RevisionFilename(a) == RevisionFilename(b) {
      assert |x + TARBALL| == |y + TARBALL|;
      assert x == (x + TARBALL)[..|x|] == (y + TARBALL)[..|y|] == y;
      forall i | 0 <= i < |a| ensures a[i] == b[i] || (a[i] == ':' && b[i] == '-') || (a[i] == '-' && b[i] == ':') {
        assert x[i] == y[i];
      }
    }
  }

  lemma DigestHasOneSeparator(r: string)
    requires ValidDigest(r)
    ensures '-' !in r
    ensures forall i :: 0 <= i < |r| ==> (r[i] == ':' <==> i == IndexOf(r, ':'))
  {
    var k := IndexOf(r, ':');
    IndexOfIsFirst(r, ':');
    forall i | 0 <= i < |r| ensures r[i] != '-' && (r[i] == ':' <==> i == k) {
      if i < k {
        assert r[..k][i] == r[i];
        assert r[i] in r[..k];
      } else if i > k {
        assert r[k + 1..][i - k - 1] == r[i];
        assert r[i] in r[k + 1..];
      }
    }
  }

  /** The digests the Publisher passes never share a file. */
  lemma DigestFilenameInjective(a: string, b: string)
    requires ValidDigest(a) && ValidDigest(b)
    requires RevisionFilename(a) == RevisionFilename(b)
    ensures a == b
  {
    FilenameCollision(a, b);
    DigestHasOneSeparator(a);
    DigestHasOneSeparator(b);
    forall i | 0 <= i < |a| ensures a[i] == b[i] {
      assert a[i] in a && b[i] in b;
    }
  }

  /** A digest's file is one Prune and Sweep recognise, and is never a temporary name. */
  lemma DigestFilenameIsCandidate(r: string)
    requires ValidDigest(r)
    ensures IsCandidateName(RevisionFilename(r))
    ensures !HasSuffix(RevisionFilename(r), TEMPORARY)
  {
    var name := RevisionFilename(r);
    var stem := ReplaceColons(r);
    assert name[|name| - |TARBALL|..] == TARBALL;
    assert name[..|name| - |TARBALL|] == stem;
    assert name[|name| - 1] == 'z';
    if HasSuffix(name, TEMPORARY) { SuffixLastChar(name, TEMPORARY); }
    if HasSuffix(name, ".tmp") { SuffixLastChar(name, ".tmp"); }
    DigestHasOneSeparator(r);
    var k := IndexOf(r, ':');
    assert stem[..k] == r[..k];
    IndexOfIs(stem, '-', k);
    assert stem[k + 1..] == r[k + 1..];
  }

  /** Without the digest shape the mapping is not one to one. */
  lemma BareRevisionsCollide()
    ensures RevisionFilename("a:b") == RevisionFilename("a-b") && "a:b" != "a-b"
  {
    FilenameCollision("a:b", "a-b");
  }
}
