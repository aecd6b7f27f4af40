/** The target-source tally of `SQLGenerationPipeline.print_summary_statistics`
    (app.py:445-450): how many results chose each target source. Printing the tally is not
    part of the model. */
module SummaryStatistics {
  import opened ResultRecord

  /** Every result carries a `target_source`; `r['target_source']` raises `KeyError`
      otherwise. Both kinds of result the pipeline records have one (app.py:294 and
      app.py:313). */
  predicate HaveSources(results: seq<map<string, Value>>) {
    forall i :: 0 <= i < |results| ==> "target_source" in results[i]
  }

  /** Number of results whose target source is `src`. */
  function Occurrences(results: seq<map<string, Value>>, src: Value): (n: nat)
    requires HaveSources(results)
    ensures n <= |results|
    ensures n > 0 <==> exists i :: 0 <= i < |results| && results[i]["target_source"] == src
    decreases |results|
  {
    if results == [] then 0
    else
      var init := results[..|results| - 1];
      var here := if results[|results| - 1]["target_source"] == src then 1 else 0;
      var n := Occurrences(init, src) + here;
      assert n > 0 ==> exists i :: 0 <= i < |results| && results[i]["target_source"] == src by {
        if Occurrences(init, src) > 0 {
          var i :| 0 <= i < |init| && init[i]["target_source"] == src;
          assert results[i] == init[i];
        }
      }
      assert (exists i :: 0 <= i < |results| && results[i]["target_source"] == src) ==> n > 0 by {
        if n == 0 {
          forall i | 0 <= i < |results|
            ensures results[i]["target_source"] != src
          {
            if i < |init| {
              assert results[i] == init[i];
            }
          }
        }
      }
      n
  }

  /** app.py:445-448: `sources[src] = sources.get(src, 0) + 1` for every result, in order. */
  method TallySources(results: seq<map<string, Value>>) returns (sources: map<Value, nat>)
    requires HaveSources(results)
    ensures forall src :: src in sources <==> Occurrences(results, src) > 0
    ensures forall src :: src in sources ==> sources[src] == Occurrences(results, src)
  {
    sources := map[];
    for k := 0 to |results|
      invariant forall src :: src in sources <==> Occurrences(results[..k], src) > 0
      invariant forall src :: src in sources ==> sources[src] == Occurrences(results[..k], src)
    {
      var src := results[k]["target_source"];
      var count := if src in sources then sources[src] else 0;
      sources := sources[src := count + 1];
      forall other
        ensures Occurrences(results[..k + 1], other) ==
          Occurrences(results[..k], other) + if other == src then 1 else 0
      {
        OccurrencesAppend(results, k, other);
      }
    }
    assert results[..|results|] == results;
  }

  lemma OccurrencesAppend(results: seq<map<string, Value>>, k: nat, src: Value)
    requires HaveSources(results) && k < |results|
    ensures HaveSources(results[..k]) && HaveSources(results[..k + 1])
    ensures Occurrences(results[..k + 1], src) ==
      Occurrences(results[..k], src) + if results[k]["target_source"] == src then 1 else 0
  {
    assert results[..k + 1][..k] == results[..k];
  }

  /** The counts add up to the number of results: every result is counted once, under its
      own source. */
  lemma {:induction false} OccurrencesSum(results: seq<map<string, Value>>, srcs: seq<Value>)
    requires HaveSources(results)
    requires forall i, j :: 0 <= i < j < |srcs| ==> srcs[i] != srcs[j]
    requires forall i :: 0 <= i < |results| ==> results[i]["target_source"] in srcs
    ensures Total(results, srcs) == |results|
    decreases |results|
  {
    if results == [] {
      TotalOfNone(srcs);
    } else {
      var init := results[..|results| - 1];
      assert HaveSources(init) by {
        forall i | 0 <= i < |init|
          ensures "target_source" in init[i]
        {
          assert init[i] == results[i];
        }
      }
      assert forall i :: 0 <= i < |init| ==> init[i]["target_source"] in srcs by {
        forall i | 0 <= i < |init|
          ensures init[i]["target_source"] in srcs
        {
          assert init[i] == results[i];
        }
      }
      OccurrencesSum(init, srcs);
      TotalStep(results, srcs);
    }
  }

  /** The sum of the counts of the given sources. */
  function Total(results: seq<map<string, Value>>, srcs: seq<Value>): nat
    requires HaveSources(results)
    decreases |srcs|
  {
    if srcs == [] then 0 else Occurrences(results, srcs[0]) + Total(results, srcs[1..])
  }

  /** Adding a result adds one to the total of a list of distinct sources that includes its
      source. */
  lemma {:induction false} TotalStep(results: seq<map<string, Value>>, srcs: seq<Value>)
    requires results != [] && HaveSources(results) && HaveSources(results[..|results| - 1])
    requires forall i, j :: 0 <= i < j < |srcs| ==> srcs[i] != srcs[j]
    requires results[|results| - 1]["target_source"] in srcs
    ensures Total(results, srcs) == Total(results[..|results| - 1], srcs) + 1
    decreases |srcs|
  {
    var init := results[..|results| - 1];
    var last := results[|results| - 1]["target_source"];
    if srcs[0] == last {
      TotalUnchanged(results, srcs[1..]);
    } else {
      TotalStep(results, srcs[1..]);
    }
  }

  lemma {:induction false} TotalOfNone(srcs: seq<Value>)
    ensures Total([], srcs) == 0
    decreases |srcs|
  {
    if srcs != [] {
      TotalOfNone(srcs[1..]);
    }
  }

  /** Adding a result leaves the total of sources other than its own unchanged. */
  lemma {:induction false} TotalUnchanged(results: seq<map<string, Value>>, srcs: seq<Value>)
    requires results != [] && HaveSources(results) && HaveSources(results[..|results| - 1])
    requires results[|results| - 1]["target_source"] !in srcs
    ensures Total(results, srcs) == Total(results[..|results| - 1], srcs)
    decreases |srcs|
  {
    if srcs != [] {
      TotalUnchanged(results, srcs[1..]);
    }
  }
}
