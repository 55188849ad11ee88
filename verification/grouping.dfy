/** Strided slicing and zipping: how a flat list of numeric fields is regrouped
    into (frequency, lnPSD) knots or (frequency, amplitude, quality) lines. */
module Grouping {

  /** One spline control point: a frequency and the natural log of the PSD there. */
  datatype Knot = Knot(frequency: real, lnPSD: real)

  /** One spectral line: centre frequency, amplitude and quality factor. */
  datatype Line = Line(frequency: real, amplitude: real, quality: real)

  type SplineSample = seq<Knot>
  type LineSample = seq<Line>

  /** The slice `s[start:]`, which Python makes empty when `start` is past the end. */
  function Drop<T>(s: seq<T>, start: nat): (r: seq<T>)
    ensures |r| == if start <= |s| then |s| - start else 0
    ensures forall k :: 0 <= k < |r| ==> r[k] == s[start + k]
  {
    if start <= |s| then s[start..] else []
  }

  /** The slice `s[::2]`: the elements at even positions. */
  function EveryOther<T>(s: seq<T>): (r: seq<T>)
    ensures |r| == (|s| + 1) / 2
    ensures forall k :: 0 <= k < |r| ==> r[k] == s[2 * k]
  {
    if |s| <= 1 then s
    else
      var rest := EveryOther(s[2..]);
      assert forall k :: 1 <= k < |rest| + 1 ==> s[2 * k] == s[2..][2 * (k - 1)];
      [s[0]] + rest
  }

  /** The slice `s[::3]`: the elements at positions divisible by three. */
  function EveryThird<T>(s: seq<T>): (r: seq<T>)
    ensures |r| == (|s| + 2) / 3
    ensures forall k :: 0 <= k < |r| ==> r[k] == s[3 * k]
  {
    if |s| <= 1 then s
    else if |s| <= 3 then [s[0]]
    else
      var rest := EveryThird(s[3..]);
      assert forall k :: 1 <= k < |rest| + 1 ==> s[3 * k] == s[3..][3 * (k - 1)];
      [s[0]] + rest
  }

  /** Python 2 `zip(a, b)` building knots: truncates to the shorter input. */
  function ZipKnots(a: seq<real>, b: seq<real>): (r: SplineSample)
    ensures |r| == if |a| < |b| then |a| else |b|
    ensures forall k :: 0 <= k < |r| ==> r[k] == Knot(a[k], b[k])
  {
    if |a| == 0 || |b| == 0 then [] else [Knot(a[0], b[0])] + ZipKnots(a[1..], b[1..])
  }

  /** Python 2 `zip(a, b, c)` building lines: truncates to the shortest input. */
  function ZipLines(a: seq<real>, b: seq<real>, c: seq<real>): (r: LineSample)
    ensures |r| == Min3(|a|, |b|, |c|)
    ensures forall k :: 0 <= k < |r| ==> r[k] == Line(a[k], b[k], c[k])
  {
    if |a| == 0 || |b| == 0 || |c| == 0 then []
    else [Line(a[0], b[0], c[0])] + ZipLines(a[1..], b[1..], c[1..])
  }

  function Min3(x: nat, y: nat, z: nat): nat {
    if x <= y && x <= z then x else if y <= z then y else z
  }

  /** Consecutive (frequency, lnPSD) pairs; a trailing odd field is dropped. */
  function Pairs(fields: seq<real>): (r: SplineSample)
    ensures |r| == |fields| / 2
    ensures forall k :: 0 <= k < |r| ==> r[k] == Knot(fields[2 * k], fields[2 * k + 1])
  {
    if |fields| < 2 then []
    else
      var rest := Pairs(fields[2..]);
      assert forall k :: 1 <= k < |rest| + 1 ==> fields[2 * k] == fields[2..][2 * (k - 1)];
      assert forall k :: 1 <= k < |rest| + 1 ==> fields[2 * k + 1] == fields[2..][2 * (k - 1) + 1];
      [Knot(fields[0], fields[1])] + rest
  }

  /** Consecutive (frequency, amplitude, quality) triples; one or two trailing fields
      are dropped. */
  function Triples(fields: seq<real>): (r: LineSample)
    ensures |r| == |fields| / 3
    ensures forall k :: 0 <= k < |r| ==>
      r[k] == Line(fields[3 * k], fields[3 * k + 1], fields[3 * k + 2])
  {
    if |fields| < 3 then []
    else
      var rest := Triples(fields[3..]);
      assert forall k :: 1 <= k < |rest| + 1 ==> fields[3 * k] == fields[3..][3 * (k - 1)];
      assert forall k :: 1 <= k < |rest| + 1 ==> fields[3 * k + 1] == fields[3..][3 * (k - 1) + 1];
      assert forall k :: 1 <= k < |rest| + 1 ==> fields[3 * k + 2] == fields[3..][3 * (k - 1) + 2];
      [Line(fields[0], fields[1], fields[2])] + rest
  }

  /** `Pairs` is `zip(fields[::2], fields[1::2])`, the way a spline record is regrouped. */
  lemma PairsIsStridedZip(fields: seq<real>)
    ensures Pairs(fields) == ZipKnots(EveryOther(fields), EveryOther(Drop(fields, 1)))
  {
    var z := ZipKnots(EveryOther(fields), EveryOther(Drop(fields, 1)));
    assert |z| == |fields| / 2;
    forall k | 0 <= k < |z| ensures z[k] == Pairs(fields)[k] {
      assert EveryOther(Drop(fields, 1))[k] == Drop(fields, 1)[2 * k] == fields[2 * k + 1];
    }
  }

  /** `Triples` is `zip(fields[::3], fields[1::3], fields[2::3])`, the way a line record
      is regrouped. */
  lemma TriplesIsStridedZip(fields: seq<real>)
    ensures Triples(fields) == ZipLines(EveryThird(fields), EveryThird(Drop(fields, 1)), EveryThird(Drop(fields, 2)))
  {
    var a, b, c := EveryThird(fields), EveryThird(Drop(fields, 1)), EveryThird(Drop(fields, 2));
    var z := ZipLines(a, b, c);
    assert |z| == |fields| / 3;
    forall k | 0 <= k < |z| ensures z[k] == Triples(fields)[k] {
      assert b[k] == Drop(fields, 1)[3 * k] == fields[3 * k + 1];
      assert c[k] == Drop(fields, 2)[3 * k] == fields[3 * k + 2];
    }
  }

  /** The record layout a sampler writes for a spline sample (without the leading scalar). */
  function FlattenKnots(ks: SplineSample): (r: seq<real>)
    ensures |r| == 2 * |ks|
    ensures forall k :: 0 <= k < |ks| ==> r[2 * k] == ks[k].frequency && r[2 * k + 1] == ks[k].lnPSD
  {
    if |ks| == 0 then []
    else
      var rest := FlattenKnots(ks[1..]);
      var r := [ks[0].frequency, ks[0].lnPSD] + rest;
      assert forall k :: 1 <= k < |ks| ==> r[2 * k] == rest[2 * (k - 1)];
      assert forall k :: 1 <= k < |ks| ==> r[2 * k + 1] == rest[2 * (k - 1) + 1];
      r
  }

  /** The record layout a sampler writes for a line sample (without the leading scalar). */
  function FlattenLines(ls: LineSample): (r: seq<real>)
    ensures |r| == 3 * |ls|
    ensures forall k :: 0 <= k < |ls| ==>
      r[3 * k] == ls[k].frequency && r[3 * k + 1] == ls[k].amplitude && r[3 * k + 2] == ls[k].quality
  {
    if |ls| == 0 then []
    else
      var rest := FlattenLines(ls[1..]);
      var r := [ls[0].frequency, ls[0].amplitude, ls[0].quality] + rest;
      assert forall k :: 1 <= k < |ls| ==> r[3 * k] == rest[3 * (k - 1)];
      assert forall k :: 1 <= k < |ls| ==> r[3 * k + 1] == rest[3 * (k - 1) + 1];
      assert forall k :: 1 <= k < |ls| ==> r[3 * k + 2] == rest[3 * (k - 1) + 2];
      r
  }

  /** Decoding a written spline record gives back exactly the knots written. */
  lemma PairsOfFlatten(ks: SplineSample)
    ensures Pairs(FlattenKnots(ks)) == ks
  {
    var r := Pairs(FlattenKnots(ks));
    assert |r| == |ks|;
    assert forall k :: 0 <= k < |ks| ==> r[k] == ks[k];
  }

  /** Decoding a written line record gives back exactly the lines written. */
  lemma TriplesOfFlatten(ls: LineSample)
    ensures Triples(FlattenLines(ls)) == ls
  {
    var r := Triples(FlattenLines(ls));
    assert |r| == |ls|;
    assert forall k :: 0 <= k < |ls| ==> r[k] == ls[k];
  }

  /** Regrouping keeps the longest even-length prefix of the fields and nothing else. */
  lemma FlattenOfPairs(fields: seq<real>)
    ensures FlattenKnots(Pairs(fields)) == fields[..2 * (|fields| / 2)]
  {
    InterleavedPairs(fields, Pairs(fields), FlattenKnots(Pairs(fields)));
  }

  /** Regrouping keeps the longest prefix whose length is a multiple of three. */
  lemma FlattenOfTriples(fields: seq<real>)
    ensures FlattenLines(Triples(fields)) == fields[..3 * (|fields| / 3)]
  {
    InterleavedTriples(fields, Triples(fields), FlattenLines(Triples(fields)));
  }

  /** A flat list `r` laying out knots `t` that were read off `fields` pairwise is a
      prefix of `fields`. */
  lemma InterleavedPairs(fields: seq<real>, t: SplineSample, r: seq<real>)
    requires |t| <= |fields| / 2 && |r| == 2 * |t|
    requires forall k :: 0 <= k < |t| ==> t[k] == Knot(fields[2 * k], fields[2 * k + 1])
    requires forall k :: 0 <= k < |t| ==> r[2 * k] == t[k].frequency && r[2 * k + 1] == t[k].lnPSD
    ensures r == fields[..2 * |t|]
  {
    forall i | 0 <= i < |r| ensures r[i] == fields[i] {
      var k := i / 2;
      if i == 2 * k {
        assert r[2 * k] == t[k].frequency;
      } else {
        assert i == 2 * k + 1;
        assert r[2 * k + 1] == t[k].lnPSD;
      }
    }
  }

  /** A flat list `r` laying out lines `t` that were read off `fields` three at a time
      is a prefix of `fields`. */
  lemma InterleavedTriples(fields: seq<real>, t: LineSample, r: seq<real>)
    requires |t| <= |fields| / 3 && |r| == 3 * |t|
    requires forall k :: 0 <= k < |t| ==> t[k] == Line(fields[3 * k], fields[3 * k + 1], fields[3 * k + 2])
    requires forall k :: 0 <= k < |t| ==>
      r[3 * k] == t[k].frequency && r[3 * k + 1] == t[k].amplitude && r[3 * k + 2] == t[k].quality
    ensures r == fields[..3 * |t|]
  {
    forall i | 0 <= i < |r| ensures r[i] == fields[i] {
      var k := i / 3;
      if i == 3 * k {
        assert r[3 * k] == t[k].frequency;
      } else if i == 3 * k + 1 {
        assert r[3 * k + 1] == t[k].amplitude;
      } else {
        assert i == 3 * k + 2;
        assert r[3 * k + 2] == t[k].quality;
      }
    }
  }

  /** A trailing unpaired field never changes the decoded spline sample. */
  lemma PairsIgnoresOddTail(fields: seq<real>, x: real)
    requires |fields| % 2 == 0
    ensures Pairs(fields + [x]) == Pairs(fields)
  {
    var a := Pairs(fields + [x]);
    var b := Pairs(fields);
    assert |a| == |b|;
    assert forall k :: 0 <= k < |a| ==> a[k] == b[k];
  }
}
