/**
 * The bytes of a file as one sequence: the clusters of its chain laid end to end. Positions given as
 * cluster, sector and byte are places in that sequence.
 */
module FileImage {
  import opened Arith
  import opened Bytes
  import opened Geometry
  import opened Chains

  /** All clusters in range hold `b` bytes. */
  predicate Sized(cl: seq<seq<byte>>, ch: Chain, b: nat) {
    forall i :: 0 <= i < |ch| ==> ch[i] < |cl| && |cl[ch[i]]| == b
  }

  function Image(cl: seq<seq<byte>>, ch: Chain, b: nat): (r: seq<byte>)
    requires Sized(cl, ch, b)
  {
    if ch == [] then [] else Image(cl, ch[..|ch| - 1], b) + cl[ch[|ch| - 1]]
  }

  /** Where cluster j of a file starts: j b, by repeated addition. */
  function Offset(j: nat, b: nat): nat {
    if j == 0 then 0 else Offset(j - 1, b) + b
  }

  lemma {:induction false} OffsetIs(j: nat, b: nat)
    ensures Offset(j, b) == j * b
  {
    if j > 0 {
      OffsetIs(j - 1, b);
      assert j * b == (j - 1) * b + b;
    }
  }

  lemma {:induction false} OffsetMono(i: nat, j: nat, b: nat)
    requires i <= j
    ensures Offset(i, b) <= Offset(j, b)
    ensures i < j ==> Offset(i, b) + b <= Offset(j, b)
  {
    if i < j { OffsetMono(i, j - 1, b); }
  }

  lemma OffsetInjective(i: nat, j: nat, b: nat)
    requires b > 0
    ensures Offset(i, b) == Offset(j, b) <==> i == j
  {
    if i < j { OffsetMono(i, j, b); } else { OffsetMono(j, i, b); }
  }

  lemma {:induction false} ImageLength(cl: seq<seq<byte>>, ch: Chain, b: nat)
    requires Sized(cl, ch, b)
    ensures |Image(cl, ch, b)| == Offset(|ch|, b)
  {
    if ch != [] {
      ImageLength(cl, ch[..|ch| - 1], b);
    }
  }

  lemma ImageExtend(cl: seq<seq<byte>>, ch: Chain, n: nat, b: nat)
    requires Sized(cl, ch + [n], b)
    ensures Sized(cl, ch, b) && n < |cl|
    ensures Image(cl, ch + [n], b) == Image(cl, ch, b) + cl[n]
  {
    assert (ch + [n])[..|ch|] == ch;
    assert (ch + [n])[|ch|] == n;
    forall i | 0 <= i < |ch| ensures ch[i] < |cl| && |cl[ch[i]]| == b { assert (ch + [n])[i] == ch[i]; }
  }

  lemma SliceOfFirst<T>(s: seq<T>, t: seq<T>, a: nat, b: nat)
    requires a <= b <= |s|
    ensures (s + t)[a..b] == s[a..b]
  {
  }

  /** Cluster j of the chain holds the bytes from j b on. */
  lemma {:induction false} ImageCluster(cl: seq<seq<byte>>, ch: Chain, b: nat, j: nat)
    requires Sized(cl, ch, b) && j < |ch|
    ensures |Image(cl, ch, b)| == Offset(|ch|, b) && Offset(j, b) + b <= Offset(|ch|, b)
    ensures Image(cl, ch, b)[Offset(j, b)..Offset(j, b) + b] == cl[ch[j]]
  {
    var front := ch[..|ch| - 1];
    ImageLength(cl, ch, b);
    ImageLength(cl, front, b);
    OffsetMono(j, |ch|, b);
    var all, last := Image(cl, ch, b), cl[ch[|ch| - 1]];
    assert all == Image(cl, front, b) + last;
    if j < |ch| - 1 {
      OffsetMono(j, |ch| - 1, b);
      ImageCluster(cl, front, b, j);
      SliceOfFirst(Image(cl, front, b), last, Offset(j, b), Offset(j, b) + b);
    } else {
      assert all[Offset(j, b)..Offset(j, b) + b] == last;
    }
  }

  /** Part of a cluster is the corresponding part of the file. */
  lemma ImagePart(cl: seq<seq<byte>>, ch: Chain, b: nat, j: nat, o: nat, n: nat)
    requires Sized(cl, ch, b) && j < |ch| && o + n <= b
    ensures |Image(cl, ch, b)| == Offset(|ch|, b) && Offset(j, b) + b <= Offset(|ch|, b)
    ensures Image(cl, ch, b)[Offset(j, b) + o..Offset(j, b) + o + n] == cl[ch[j]][o..o + n]
  {
    ImageCluster(cl, ch, b, j);
    SliceOfSlice(Image(cl, ch, b), Offset(j, b), b, o, n);
  }

  /** Clusters of no interest do not matter. */
  lemma {:induction false} ImageFrame(cl: seq<seq<byte>>, cl': seq<seq<byte>>, ch: Chain, b: nat)
    requires Sized(cl, ch, b)
    requires forall i :: 0 <= i < |ch| ==> ch[i] < |cl'| && cl'[ch[i]] == cl[ch[i]]
    ensures Sized(cl', ch, b) && Image(cl', ch, b) == Image(cl, ch, b)
  {
    if ch != [] {
      ImageFrame(cl, cl', ch[..|ch| - 1], b);
    }
  }

  /** Overwriting inside cluster j overwrites that part of the file and no other. */
  lemma {:induction false} ImageWrite(cl: seq<seq<byte>>, ch: Chain, b: nat, j: nat, o: nat, d: seq<byte>)
    requires Sized(cl, ch, b) && Distinct(ch) && j < |ch| && o + |d| <= b
    ensures Offset(j, b) + o + |d| <= |Image(cl, ch, b)|
    ensures var cl' := cl[ch[j] := Splice(cl[ch[j]], o, d)];
      Sized(cl', ch, b) && Image(cl', ch, b) == Splice(Image(cl, ch, b), Offset(j, b) + o, d)
  {
    var n := |ch| - 1;
    if j < n {
      var cl' := cl[ch[j] := Splice(cl[ch[j]], o, d)];
      assert ch[n] != ch[j];
      assert Sized(cl', ch, b);
      ImageWrite(cl, ch[..n], b, j, o, d);
      assert Image(cl', ch, b) == Image(cl', ch[..n], b) + cl[ch[n]];
      assert Image(cl, ch, b) == Image(cl, ch[..n], b) + cl[ch[n]];
      SpliceLeft(Image(cl, ch[..n], b), cl[ch[n]], Offset(j, b) + o, d);
    } else {
      ImageWriteLast(cl, ch, b, o, d);
    }
  }

  lemma ImageWriteLast(cl: seq<seq<byte>>, ch: Chain, b: nat, o: nat, d: seq<byte>)
    requires Sized(cl, ch, b) && Distinct(ch) && 0 < |ch| && o + |d| <= b
    ensures Offset(|ch| - 1, b) + o + |d| <= |Image(cl, ch, b)|
    ensures var cl' := cl[Last(ch) := Splice(cl[Last(ch)], o, d)];
      Sized(cl', ch, b) && Image(cl', ch, b) == Splice(Image(cl, ch, b), Offset(|ch| - 1, b) + o, d)
  {
    var front := ch[..|ch| - 1];
    ImageLength(cl, front, b);
    ImageFrame(cl, cl[Last(ch) := Splice(cl[Last(ch)], o, d)], front, b);
    SpliceRight(Image(cl, front, b), cl[Last(ch)], Offset(|ch| - 1, b) + o, d);
  }

  /** A file of `size` bytes; nothing if the chain is too short for it. */
  function Content(cl: seq<seq<byte>>, ch: Chain, b: nat, size: nat): seq<byte> {
    if Sized(cl, ch, b) && size <= |Image(cl, ch, b)| then Image(cl, ch, b)[..size] else []
  }

  lemma ContentLength(cl: seq<seq<byte>>, ch: Chain, b: nat, size: nat)
    requires Sized(cl, ch, b) && size <= Offset(|ch|, b)
    ensures |Content(cl, ch, b, size)| == size && Content(cl, ch, b, size) == Image(cl, ch, b)[..size]
  {
    ImageLength(cl, ch, b);
  }

  /** The first k clusters hold the first k b bytes. */
  lemma {:induction false} ImagePrefix(cl: seq<seq<byte>>, ch: Chain, b: nat, k: nat)
    requires Sized(cl, ch, b) && k <= |ch|
    ensures Sized(cl, ch[..k], b) && Offset(k, b) <= |Image(cl, ch, b)|
    ensures Image(cl, ch[..k], b) == Image(cl, ch, b)[..Offset(k, b)]
  {
    ImageLength(cl, ch[..k], b);
    if k == |ch| {
      assert ch[..k] == ch;
    } else {
      var front := ch[..|ch| - 1];
      ImagePrefix(cl, front, b, k);
      assert front[..k] == ch[..k];
    }
  }

  // ---- positions ----

  datatype Position = Position(cluster: nat, sector: nat, byte: nat)

  /** The position lies `p` bytes into the file, in cluster j of the chain; it may stand at the end of the cluster. */
  predicate At(v: Volume, ch: Chain, j: nat, pos: Position, p: nat) {
    && j < |ch| && pos.cluster == ch[j]
    && pos.sector <= v.sectorsPerCluster && pos.byte < BYTES_PER_READ
    && (pos.sector == v.sectorsPerCluster ==> pos.byte == 0)
    && p == Offset(j, v.BytesPerCluster()) + BYTES_PER_READ * pos.sector + pos.byte
  }

  /** The position names the byte at offset p. */
  predicate Normal(v: Volume, ch: Chain, pos: Position, p: nat)
    requires v.Ok()
  {
    var b := v.BytesPerCluster();
    p / b < |ch| && pos == Position(ch[p / b], p % b / BYTES_PER_READ, p % BYTES_PER_READ)
  }

  /** The position stands behind the last byte of the cluster before offset p; the next one is found when writing on. */
  predicate EndForm(v: Volume, ch: Chain, pos: Position, p: nat)
    requires v.Ok()
  {
    var b := v.BytesPerCluster();
    p > 0 && p % b == 0 && p / b - 1 < |ch| && pos == Position(ch[p / b - 1], v.sectorsPerCluster, 0)
  }

  predicate Agree(v: Volume, ch: Chain, pos: Position, p: nat)
    requires v.Ok()
  {
    Normal(v, ch, pos, p) || EndForm(v, ch, pos, p)
  }

  /** 512 divides the cluster size, so the byte within a sector can be read off the offset. */
  lemma SectorAndByte(v: Volume, p: nat)
    requires v.Ok()
    ensures var b := v.BytesPerCluster();
      && p % b % BYTES_PER_READ == p % BYTES_PER_READ && p % b / BYTES_PER_READ < v.sectorsPerCluster
      && p == p / b * b + BYTES_PER_READ * (p % b / BYTES_PER_READ) + p % BYTES_PER_READ
  {
    var b := v.BytesPerCluster();
    var q, r := p / b, p % b;
    var s := q * v.sectorsPerCluster;
    assert q * b == 512 * s;
    assert p == 512 * (s + r / 512) + r % 512;
    DivMod(p, 512, s + r / 512, r % 512);
  }

  /** A place within the cluster is the normal form; a place at its end, the end form. */
  lemma AtIsAgree(v: Volume, ch: Chain, j: nat, pos: Position, p: nat)
    requires v.Ok() && At(v, ch, j, pos, p)
    ensures Agree(v, ch, pos, p)
    ensures pos.sector < v.sectorsPerCluster ==> Normal(v, ch, pos, p) && j == p / v.BytesPerCluster()
    ensures pos.sector == v.sectorsPerCluster ==> EndForm(v, ch, pos, p) && p == Offset(j + 1, v.BytesPerCluster())
  {
    var b := v.BytesPerCluster();
    OffsetIs(j, b);
    OffsetIs(j + 1, b);
    if pos.sector < v.sectorsPerCluster {
      DivMod(p, b, j, BYTES_PER_READ * pos.sector + pos.byte);
      SectorAndByte(v, p);
    } else {
      DivMod(p, b, j + 1, 0);
    }
  }

  lemma NormalIsAt(v: Volume, ch: Chain, pos: Position, p: nat)
    requires v.Ok() && Normal(v, ch, pos, p)
    ensures p / v.BytesPerCluster() >= 0 && At(v, ch, p / v.BytesPerCluster(), pos, p) && pos.sector < v.sectorsPerCluster
  {
    PartsOf(v, p);
    AtFrom(v, ch, p / v.BytesPerCluster(), pos, p);
  }

  /** An offset taken apart. */
  lemma PartsOf(v: Volume, p: nat)
    requires v.Ok()
    ensures var b := v.BytesPerCluster();
      && p % b / BYTES_PER_READ < v.sectorsPerCluster
      && p == Offset(p / b, b) + BYTES_PER_READ * (p % b / BYTES_PER_READ) + p % BYTES_PER_READ
  {
    SectorAndByte(v, p);
    OffsetIs(p / v.BytesPerCluster(), v.BytesPerCluster());
  }

  lemma AtFrom(v: Volume, ch: Chain, j: nat, pos: Position, p: nat)
    requires j < |ch| && pos.cluster == ch[j] && pos.sector < v.sectorsPerCluster && pos.byte < BYTES_PER_READ
    requires p == Offset(j, v.BytesPerCluster()) + BYTES_PER_READ * pos.sector + pos.byte
    ensures At(v, ch, j, pos, p)
  {
  }

  lemma EndFormIsAt(v: Volume, ch: Chain, pos: Position, p: nat)
    requires v.Ok() && EndForm(v, ch, pos, p)
    ensures p / v.BytesPerCluster() > 0 && At(v, ch, p / v.BytesPerCluster() - 1, pos, p)
  {
    var b := v.BytesPerCluster();
    var q := p / b;
    OffsetIs(q, b);
    assert p == q * b;
    assert q == 0 ==> q * b == 0;
    assert Offset(q, b) == Offset(q - 1, b) + b;
  }

  /** A position has one offset and one cluster number. */
  lemma AtUnique(v: Volume, ch: Chain, i: nat, j: nat, pos: Position, p: nat, q: nat)
    requires v.Ok() && Distinct(ch) && At(v, ch, i, pos, p) && At(v, ch, j, pos, q)
    ensures i == j && p == q
  {
  }

  lemma AtInside(v: Volume, ch: Chain, j: nat, pos: Position, p: nat)
    requires At(v, ch, j, pos, p)
    ensures p <= Offset(|ch|, v.BytesPerCluster())
  {
    OffsetMono(j, |ch|, v.BytesPerCluster());
  }

  /** A position agrees with an offset exactly when it lies that far into the file. */
  lemma AgreeIffAt(v: Volume, ch: Chain, j: nat, pos: Position, p: nat, q: nat)
    requires v.Ok() && Distinct(ch) && At(v, ch, j, pos, p)
    ensures Agree(v, ch, pos, q) <==> p == q
  {
    AtIsAgree(v, ch, j, pos, p);
    if Normal(v, ch, pos, q) {
      NormalIsAt(v, ch, pos, q);
      var i: nat := q / v.BytesPerCluster();
      AtUnique(v, ch, j, i, pos, p, q);
    } else if EndForm(v, ch, pos, q) {
      EndFormIsAt(v, ch, pos, q);
      var i: nat := q / v.BytesPerCluster() - 1;
      AtUnique(v, ch, j, i, pos, p, q);
    }
  }

  /** An offset inside a file lies in a cluster of its chain. */
  lemma IndexInside(v: Volume, ch: Chain, p: nat)
    requires v.Ok() && p < Offset(|ch|, v.BytesPerCluster())
    ensures 0 <= p / v.BytesPerCluster() < |ch|
  {
    PartsOf(v, p);
    if p / v.BytesPerCluster() >= |ch| {
      OffsetMono(|ch|, p / v.BytesPerCluster(), v.BytesPerCluster());
    }
  }

  lemma QuotientMono(v: Volume, p: nat, q: nat)
    requires v.Ok() && p <= q
    ensures p / v.BytesPerCluster() <= q / v.BytesPerCluster()
  {
    var b := v.BytesPerCluster();
    DivMod(p, b, p / b, p % b);
    MulStep(q / b, p / b, b);
  }
}
