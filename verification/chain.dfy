/** Reading spline and line chains: burn-in/downsample selection of raw records,
    numeric parsing of their fields, and regrouping into samples.

    A chain file is given as its sequence of records, one per text line, each
    already split on whitespace. Parsing one token into a number is a parameter
    `parse`, which answers `None` for a token that is not a number. */
module Chain {
  import opened Results
  import opened Grouping

  /** One text line of a chain file, split on whitespace. */
  type Record = seq<string>

  const DefaultBurnin: int := 0
  const DefaultDownsample: int := 1

  /** Why a read was aborted, with the 0-based index of the record where it stopped. */
  datatype ReadError =
    | BadToken(index: nat)        // a field of a kept record is not a number
    | ZeroDownsample(index: nat)  // the modulus by a zero downsample factor

  /** The selection rule: the modulus applies to the raw index, not to the offset
      from the burn-in. */
  predicate Kept(i: nat, burnin: int, downsample: int) {
    i >= burnin && downsample != 0 && i % downsample == 0
  }

  /** The record at index `i` aborts the read: it reaches the downsample test with a
      zero factor, or it is kept and holds a non-numeric field. */
  predicate Aborts(r: Record, i: nat, burnin: int, downsample: int, parse: string -> Option<real>) {
    i >= burnin && (downsample == 0 || (i % downsample == 0 && !Numeric(r, parse)))
  }

  /** No record aborts the read. */
  predicate ReadsCleanly(records: seq<Record>, burnin: int, downsample: int, parse: string -> Option<real>) {
    forall i :: 0 <= i < |records| ==> !Aborts(records[i], i, burnin, downsample, parse)
  }

  /** Record `e` is the first one that aborts the read. */
  predicate FirstAbort(records: seq<Record>, e: nat, burnin: int, downsample: int, parse: string -> Option<real>) {
    && e < |records|
    && Aborts(records[e], e, burnin, downsample, parse)
    && forall j :: 0 <= j < e ==> !Aborts(records[j], j, burnin, downsample, parse)
  }

  /** The kept indices below `n`, in increasing order. */
  function KeptIndices(n: nat, burnin: int, downsample: int): (r: seq<nat>)
    ensures forall i: nat :: i in r <==> i < n && Kept(i, burnin, downsample)
    ensures forall p, q :: 0 <= p < q < |r| ==> r[p] < r[q]
    ensures forall k :: 0 <= k < |r| ==> r[k] < n
  {
    if n == 0 then []
    else KeptIndices(n - 1, burnin, downsample) + (if Kept(n - 1, burnin, downsample) then [n - 1] else [])
  }

  /** The tokens after the leading per-sample scalar (`split()[1:]`). */
  function Fields(r: Record): (fs: seq<string>)
    ensures |r| > 0 ==> |fs| == |r| - 1 && forall k :: 0 <= k < |fs| ==> fs[k] == r[k + 1]
    ensures |r| == 0 ==> fs == []
  {
    if |r| == 0 then [] else r[1..]
  }

  /** Parse every token; absent as soon as one token is not a number. */
  function ParseAll(tokens: seq<string>, parse: string -> Option<real>): (r: Option<seq<real>>)
    ensures r.Some? <==> forall k :: 0 <= k < |tokens| ==> parse(tokens[k]).Some?
    ensures r.Some? ==>
      && |r.value| == |tokens|
      && forall k :: 0 <= k < |tokens| ==> r.value[k] == parse(tokens[k]).value
  {
    if |tokens| == 0 then Some([])
    else
      match (parse(tokens[0]), ParseAll(tokens[1..], parse))
      case (Some(x), Some(xs)) => Some([x] + xs)
      case _ => None
  }

  /** Every field of the record parses (the leading scalar is never parsed). */
  predicate Numeric(r: Record, parse: string -> Option<real>) {
    ParseAll(Fields(r), parse).Some?
  }

  /** The numeric fields of a record. */
  function Values(r: Record, parse: string -> Option<real>): seq<real>
    requires Numeric(r, parse)
  {
    ParseAll(Fields(r), parse).value
  }

  /** `samples` holds, in order, the decoded values of the records at `idx`. */
  ghost predicate SamplesOf<S>(samples: seq<S>, records: seq<Record>, idx: seq<nat>,
                         parse: string -> Option<real>, decode: seq<real> -> S)
  {
    && |samples| == |idx|
    && forall k :: 0 <= k < |idx| ==>
         idx[k] < |records| && Numeric(records[idx[k]], parse) && samples[k] == decode(Values(records[idx[k]], parse))
  }

  /** No record among the first `n` aborts, stated one record at a time. */
  predicate CleanPrefix(records: seq<Record>, n: nat, burnin: int, downsample: int, parse: string -> Option<real>)
    requires n <= |records|
  {
    n == 0 || (CleanPrefix(records, n - 1, burnin, downsample, parse) && !Aborts(records[n - 1], n - 1, burnin, downsample, parse))
  }

  /** The decoded kept records among the first `n`, in order; a kept record whose
      fields do not parse contributes nothing here (the read aborts on it instead). */
  function Select<S>(records: seq<Record>, n: nat, burnin: int, downsample: int,
                     parse: string -> Option<real>, decode: seq<real> -> S): (r: seq<S>)
    requires n <= |records|
    ensures |r| <= |KeptIndices(n, burnin, downsample)|
    ensures (forall j :: 0 <= j < n && Kept(j, burnin, downsample) ==> Numeric(records[j], parse))
            ==> |r| == |KeptIndices(n, burnin, downsample)|
  {
    if n == 0 then []
    else
      var r := records[n - 1];
      Select(records, n - 1, burnin, downsample, parse, decode)
      + (if Kept(n - 1, burnin, downsample) && Numeric(r, parse) then [decode(Values(r, parse))] else [])
  }

  /** When no record among the first `n` aborts, the selection holds exactly the decoded
      records at the kept indices. */
  lemma {:induction false} SelectIsKept<S>(records: seq<Record>, n: nat, burnin: int, downsample: int,
                                           parse: string -> Option<real>, decode: seq<real> -> S)
    requires n <= |records|
    requires CleanPrefix(records, n, burnin, downsample, parse)
    ensures SamplesOf(Select(records, n, burnin, downsample, parse, decode), records,
                      KeptIndices(n, burnin, downsample), parse, decode)
  {
    if n > 0 {
      SelectIsKept(records, n - 1, burnin, downsample, parse, decode);
      var s := Select(records, n - 1, burnin, downsample, parse, decode);
      var idx := KeptIndices(n - 1, burnin, downsample);
      if Kept(n - 1, burnin, downsample) {
        var r := records[n - 1];
        var d := decode(Values(r, parse));
        assert Select(records, n, burnin, downsample, parse, decode) == s + [d];
        assert KeptIndices(n, burnin, downsample) == idx + [n - 1];
        forall k | 0 <= k < |idx| + 1
          ensures (idx + [n - 1])[k] < |records|
          ensures Numeric(records[(idx + [n - 1])[k]], parse)
          ensures (s + [d])[k] == decode(Values(records[(idx + [n - 1])[k]], parse))
        {
          if k < |idx| {
            assert (s + [d])[k] == s[k];
            assert (idx + [n - 1])[k] == idx[k];
          }
        }
      } else {
        assert Select(records, n, burnin, downsample, parse, decode) == s;
        assert KeptIndices(n, burnin, downsample) == idx;
      }
    }
  }

  /** The record-by-record statement agrees with the quantified one. */
  lemma {:induction false} CleanPrefixMeansNoAbort(records: seq<Record>, n: nat, burnin: int, downsample: int,
                                                   parse: string -> Option<real>)
    requires n <= |records|
    ensures CleanPrefix(records, n, burnin, downsample, parse)
        <==> forall j :: 0 <= j < n ==> !Aborts(records[j], j, burnin, downsample, parse)
  {
    if n > 0 {
      CleanPrefixMeansNoAbort(records, n - 1, burnin, downsample, parse);
    }
  }

  /** The first `i` records read cleanly and record `i` aborts: the read stops there. */
  lemma StopsAt(records: seq<Record>, i: nat, burnin: int, downsample: int, parse: string -> Option<real>)
    requires i < |records|
    requires CleanPrefix(records, i, burnin, downsample, parse)
    requires Aborts(records[i], i, burnin, downsample, parse)
    ensures FirstAbort(records, i, burnin, downsample, parse)
    ensures !ReadsCleanly(records, burnin, downsample, parse)
  {
    CleanPrefixMeansNoAbort(records, i, burnin, downsample, parse);
  }

  /** Read a chain: walk the records in order, skip the unselected ones unparsed,
      and decode each kept record's numeric fields with `decode`. */
  method ReadChain<S>(records: seq<Record>, burnin: int, downsample: int,
                      parse: string -> Option<real>, decode: seq<real> -> S)
    returns (res: Result<seq<S>, ReadError>)
    ensures res.Success? <==> ReadsCleanly(records, burnin, downsample, parse)
    ensures res.Failure? ==> FirstAbort(records, res.error.index, burnin, downsample, parse)
    ensures res.Failure? ==> (res.error.ZeroDownsample? <==> downsample == 0)
    ensures res.Success? ==>
      SamplesOf(res.value, records, KeptIndices(|records|, burnin, downsample), parse, decode)
  {
    var samples: seq<S> := [];
    var i := 0;
    while i < |records|
      invariant 0 <= i <= |records|
      invariant CleanPrefix(records, i, burnin, downsample, parse)
      invariant samples == Select(records, i, burnin, downsample, parse, decode)
    {
      var r := records[i];
      if i >= burnin {
        if downsample == 0 {
          StopsAt(records, i, burnin, downsample, parse);
          return Failure(ZeroDownsample(i));
        }
        if i % downsample == 0 {
          var fields := ParseAll(Fields(r), parse);
          if fields.None? {
            StopsAt(records, i, burnin, downsample, parse);
            return Failure(BadToken(i));
          }
          samples := samples + [decode(fields.value)];
        }
      }
      i := i + 1;
    }
    CleanPrefixMeansNoAbort(records, |records|, burnin, downsample, parse);
    SelectIsKept(records, |records|, burnin, downsample, parse, decode);
    return Success(samples);
  }

  /** `splinepath2samples`: each kept record becomes its (frequency, lnPSD) pairs. */
  method ReadSplineChain(records: seq<Record>, burnin: int, downsample: int, parse: string -> Option<real>)
    returns (res: Result<seq<SplineSample>, ReadError>)
    ensures res.Success? <==> ReadsCleanly(records, burnin, downsample, parse)
    ensures res.Failure? ==> FirstAbort(records, res.error.index, burnin, downsample, parse)
    ensures res.Failure? ==> (res.error.ZeroDownsample? <==> downsample == 0)
    ensures res.Success? ==>
      var idx := KeptIndices(|records|, burnin, downsample);
      && |res.value| == |idx|
      && forall k :: 0 <= k < |idx| ==>
           Numeric(records[idx[k]], parse)
           && |res.value[k]| == |Values(records[idx[k]], parse)| / 2
           && forall m :: 0 <= m < |res.value[k]| ==>
                res.value[k][m] == Knot(Values(records[idx[k]], parse)[2 * m], Values(records[idx[k]], parse)[2 * m + 1])
  {
    res := ReadChain(records, burnin, downsample, parse, Pairs);
  }

  /** `linespath2samples`: each kept record becomes its (frequency, amplitude, quality) triples. */
  method ReadLineChain(records: seq<Record>, burnin: int, downsample: int, parse: string -> Option<real>)
    returns (res: Result<seq<LineSample>, ReadError>)
    ensures res.Success? <==> ReadsCleanly(records, burnin, downsample, parse)
    ensures res.Failure? ==> FirstAbort(records, res.error.index, burnin, downsample, parse)
    ensures res.Failure? ==> (res.error.ZeroDownsample? <==> downsample == 0)
    ensures res.Success? ==>
      var idx := KeptIndices(|records|, burnin, downsample);
      && |res.value| == |idx|
      && forall k :: 0 <= k < |idx| ==>
           Numeric(records[idx[k]], parse)
           && |res.value[k]| == |Values(records[idx[k]], parse)| / 3
           && forall m :: 0 <= m < |res.value[k]| ==>
                res.value[k][m] == Line(Values(records[idx[k]], parse)[3 * m],
                                        Values(records[idx[k]], parse)[3 * m + 1],
                                        Values(records[idx[k]], parse)[3 * m + 2])
    ensures res.Success? ==> forall k :: 0 <= k < |res.value| ==>
      var n := KeptIndices(|records|, burnin, downsample)[k];
      |records[n]| <= 1 ==> res.value[k] == []
  {
    res := ReadChain(records, burnin, downsample, parse, Triples);
  }

  /** With the default burn-in and downsample factor every record is kept, in order. */
  lemma {:induction false} DefaultsKeepAll(n: nat)
    ensures KeptIndices(n, DefaultBurnin, DefaultDownsample) == seq(n, i => i)
  {
    if n > 0 {
      DefaultsKeepAll(n - 1);
      assert seq(n, i => i) == seq(n - 1, i => i) + [n - 1];
    }
  }

  /** With the defaults a read that succeeds yields one sample per record, in order. */
  lemma DefaultReadKeepsEveryRecord(records: seq<Record>, k: nat)
    requires k < |records|
    ensures k < |KeptIndices(|records|, DefaultBurnin, DefaultDownsample)|
    ensures KeptIndices(|records|, DefaultBurnin, DefaultDownsample)[k] == k
  {
    DefaultsKeepAll(|records|);
  }

  /** The downsample modulus is taken on the raw index: with burn-in 1 and factor 2 the
      kept indices of five records are 2 and 4, not 1 and 3. */
  lemma RawIndexModulus()
    ensures KeptIndices(5, 1, 2) == [2, 4]
  {
    assert !Kept(1, 1, 2) && !Kept(3, 1, 2);
  }
}
