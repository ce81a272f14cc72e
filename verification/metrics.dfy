/**
 The `IConstants.Metrics` enum of the GUI: each constant pairs a lookup tag
 (`Flow_bits`, `Switch_drops`, ...) with the OpenTSDB metric it displays,
 and four static lookups read the table in declaration order.
 */
module Metrics {
  import opened JavaStrings

  datatype Metric = Metric(tag: string, displayTag: string)

  /** The constants of `IConstants.Metrics`, in declaration order. */
  const Values: seq<Metric> := [
    Metric("Flow_bits", "pen.flow.bits"),
    Metric("Flow_bytes", "pen.flow.bytes"),
    Metric("Flow_packets", "pen.flow.packets"),
    Metric("Flow_tableid", "pen.flow.tableid"),
    Metric("Isl_latency", "pen.isl.latency"),
    Metric("Switch_collisions", "pen.switch.collisions"),
    Metric("Switch_crcerror", "pen.switch.rx-crc-error"),
    Metric("Switch_frameerror", "pen.switch.rx-frame-error"),
    Metric("Switch_overerror", "pen.switch.rx-over-error"),
    Metric("Switch_bits", "pen.switch.rx-bits"),
    Metric("Switch_bits", "pen.switch.tx-bits"),
    Metric("Switch_bytes", "pen.switch.rx-bytes"),
    Metric("Switch_bytes", "pen.switch.tx-bytes"),
    Metric("Switch_drops", "pen.switch.rx-dropped"),
    Metric("Switch_drops", "pen.switch.tx-dropped"),
    Metric("Switch_errors", "pen.switch.rx-errors"),
    Metric("Switch_errors", "pen.switch.tx-errors"),
    Metric("Switch_packets", "pen.switch.tx-packets"),
    Metric("Switch_packets", "pen.switch.rx-packets")
  ]

  /**
   Display tags of the metrics whose tag equals `key` ignoring case, in
   table order: the reference every lookup below is measured against.
   */
  function Matching(ms: seq<Metric>, key: string): (r: seq<string>)
    ensures |r| <= |ms|
    decreases |ms|
  {
    if |ms| == 0 then []
    else
      var rest := Matching(ms[1..], key);
      if EqualsIgnoreCase(ms[0].tag, key) then [ms[0].displayTag] + rest else rest
  }

  /** Matching keeps exactly the display tags of matching metrics, and is empty exactly when none matches. */
  lemma {:induction false} MatchingSpec(ms: seq<Metric>, key: string)
    ensures forall d :: d in Matching(ms, key) ==> exists i :: 0 <= i < |ms| && ms[i].displayTag == d && EqualsIgnoreCase(ms[i].tag, key)
    ensures forall i :: 0 <= i < |ms| && EqualsIgnoreCase(ms[i].tag, key) ==> ms[i].displayTag in Matching(ms, key)
    ensures Matching(ms, key) == [] <==> forall i :: 0 <= i < |ms| ==> !EqualsIgnoreCase(ms[i].tag, key)
    decreases |ms|
  {
    if |ms| > 0 {
      var tail := ms[1..];
      MatchingSpec(tail, key);
      assert forall i :: 1 <= i < |ms| ==> ms[i] == tail[i - 1];
      forall d | d in Matching(ms, key)
        ensures exists i :: 0 <= i < |ms| && ms[i].displayTag == d && EqualsIgnoreCase(ms[i].tag, key)
      {
        if EqualsIgnoreCase(ms[0].tag, key) && d == ms[0].displayTag {
          assert ms[0].displayTag == d;
        } else {
          var j :| 0 <= j < |tail| && tail[j].displayTag == d && EqualsIgnoreCase(tail[j].tag, key);
          assert ms[j + 1] == tail[j];
        }
      }
    }
  }

  /** A table with no matching tag yields nothing. */
  lemma {:induction false} MatchingNone(ms: seq<Metric>, key: string)
    requires forall k :: 0 <= k < |ms| ==> !EqualsIgnoreCase(ms[k].tag, key)
    ensures Matching(ms, key) == []
    decreases |ms|
  {
    if |ms| > 0 {
      assert forall k :: 0 <= k < |ms[1..]| ==> ms[1..][k] == ms[k + 1];
      MatchingNone(ms[1..], key);
    }
  }

  /** Matching distributes over concatenation, so the result keeps table order. */
  lemma {:induction false} MatchingAppend(a: seq<Metric>, b: seq<Metric>, key: string)
    ensures Matching(a + b, key) == Matching(a, key) + Matching(b, key)
    decreases |a|
  {
    if |a| == 0 {
      assert a + b == b;
    } else {
      assert (a + b)[1..] == a[1..] + b;
      MatchingAppend(a[1..], b, key);
    }
  }

  /** Each element of `s` twice in a row. */
  function Doubled(s: seq<string>): (r: seq<string>)
    ensures |r| == 2 * |s|
    ensures forall j :: 0 <= j < |r| ==> r[j] == s[j / 2]
    decreases |s|
  {
    if |s| == 0 then []
    else
      var rest := Doubled(s[1..]);
      var r := [s[0], s[0]] + rest;
      assert forall j :: 2 <= j < |r| ==> r[j] == rest[j - 2] && (j - 2) / 2 == j / 2 - 1;
      r
  }

  /** The loop of `flowValue` over a table: every matching display tag is added twice, in table order. */
  function FlowValueOver(ms: seq<Metric>, key: string): (r: seq<string>)
    ensures r == Doubled(Matching(ms, key))
    decreases |ms|
  {
    if |ms| == 0 then []
    else
      var rest := FlowValueOver(ms[1..], key);
      if EqualsIgnoreCase(ms[0].tag, key) then
        var d := ms[0].displayTag;
        assert Matching(ms, key) == [d] + Matching(ms[1..], key);
        assert ([d] + Matching(ms[1..], key))[1..] == Matching(ms[1..], key);
        [d, d] + rest
      else rest
  }

  /** `Metrics.flowValue(tag)`. */
  function FlowValue(tag: string): seq<string> {
    FlowValueOver(Values, "Flow_" + tag)
  }

  /** The key `switchValue` searches for: `Isl_` for latency, `Switch_` otherwise. */
  function SwitchKey(tag: string): (key: string)
    ensures EqualsIgnoreCase(tag, "latency") ==> key == "Isl_" + tag
    ensures !EqualsIgnoreCase(tag, "latency") ==> key == "Switch_" + tag
  {
    if EqualsIgnoreCase(tag, "latency") then "Isl_" + tag else "Switch_" + tag
  }

  /** `Metrics.switchValue(tag)`: each matching display tag once, in table order. */
  function SwitchValue(tag: string): seq<string> {
    Matching(Values, SwitchKey(tag))
  }

  /** `Metrics.list()`. */
  function List(): (r: seq<string>)
    ensures |r| == |Values|
    ensures forall i :: 0 <= i < |r| ==> r[i] == Values[i].displayTag
  {
    seq(|Values|, i requires 0 <= i < |Values| => Values[i].displayTag)
  }

  predicate AllSplit(ms: seq<Metric>) {
    forall i :: 0 <= i < |ms| ==> SecondField(ms[i].tag).Some?
  }

  predicate IsFieldOf(ms: seq<Metric>, t: string) {
    exists i :: 0 <= i < |ms| && SecondField(ms[i].tag) == Some(t)
  }

  lemma SplitSnoc(ms: seq<Metric>)
    requires |ms| > 0
    ensures AllSplit(ms) <==> AllSplit(ms[..|ms| - 1]) && SecondField(ms[|ms| - 1].tag).Some?
    ensures forall u :: IsFieldOf(ms, u) <==> IsFieldOf(ms[..|ms| - 1], u) || SecondField(ms[|ms| - 1].tag) == Some(u)
  {
    var front := ms[..|ms| - 1];
    assert forall i :: 0 <= i < |front| ==> front[i] == ms[i];
    forall u
      ensures IsFieldOf(ms, u) <==> IsFieldOf(front, u) || SecondField(ms[|ms| - 1].tag) == Some(u)
    {
      if IsFieldOf(front, u) {
        var i :| 0 <= i < |front| && SecondField(front[i].tag) == Some(u);
        assert ms[i] == front[i];
      }
    }
  }

  /** The second `_`-separated field of every tag, collected into a sorted set; `None` when one tag has none. */
  function TagsOver(ms: seq<Metric>): (r: Option<seq<string>>)
    ensures r.Some? <==> AllSplit(ms)
    ensures r.Some? ==> StrictlySorted(r.value)
    ensures r.Some? ==> forall t :: t in r.value <==> IsFieldOf(ms, t)
    decreases |ms|
  {
    if |ms| == 0 then Some([])
    else
      SplitSnoc(ms);
      match TagsOver(ms[..|ms| - 1])
      case None => None
      case Some(s) =>
        match SecondField(ms[|ms| - 1].tag)
        case None => None
        case Some(t) => Some(Insert(s, t))
  }

  /** `Metrics.tags()`. */
  function Tags(): Option<seq<string>> {
    TagsOver(Values)
  }

  // Each tag of the table has exactly one '_', at the index given.
  lemma TagsSplitFlow(i: nat)
    requires 0 <= i < 5
    ensures SecondField(Values[i].tag).Some?
  {
    if i == 0 {
      assert Values[0].tag == "Flow_bits";
      SecondFieldAt("Flow_bits", 4);
    }
    if i == 1 {
      assert Values[1].tag == "Flow_bytes";
      SecondFieldAt("Flow_bytes", 4);
    }
    if i == 2 {
      assert Values[2].tag == "Flow_packets";
      SecondFieldAt("Flow_packets", 4);
    }
    if i == 3 {
      assert Values[3].tag == "Flow_tableid";
      SecondFieldAt("Flow_tableid", 4);
    }
    if i == 4 {
      assert Values[4].tag == "Isl_latency";
      SecondFieldAt("Isl_latency", 3);
    }
  }

  lemma TagsSplitSwitchErrors(i: nat)
    requires 5 <= i < 10
    ensures SecondField(Values[i].tag).Some?
  {
    if i == 5 {
      assert Values[5].tag == "Switch_collisions";
      SecondFieldAt("Switch_collisions", 6);
    }
    if i == 6 {
      assert Values[6].tag == "Switch_crcerror";
      SecondFieldAt("Switch_crcerror", 6);
    }
    if i == 7 {
      assert Values[7].tag == "Switch_frameerror";
      SecondFieldAt("Switch_frameerror", 6);
    }
    if i == 8 {
      assert Values[8].tag == "Switch_overerror";
      SecondFieldAt("Switch_overerror", 6);
    }
    if i == 9 {
      assert Values[9].tag == "Switch_bits";
      SecondFieldAt("Switch_bits", 6);
    }
  }

  lemma TagsSplitSwitchCounters(i: nat)
    requires 10 <= i < 15
    ensures SecondField(Values[i].tag).Some?
  {
    if i == 10 {
      assert Values[10].tag == "Switch_bits";
      SecondFieldAt("Switch_bits", 6);
    }
    if i == 11 {
      assert Values[11].tag == "Switch_bytes";
      SecondFieldAt("Switch_bytes", 6);
    }
    if i == 12 {
      assert Values[12].tag == "Switch_bytes";
      SecondFieldAt("Switch_bytes", 6);
    }
    if i == 13 {
      assert Values[13].tag == "Switch_drops";
      SecondFieldAt("Switch_drops", 6);
    }
    if i == 14 {
      assert Values[14].tag == "Switch_drops";
      SecondFieldAt("Switch_drops", 6);
    }
  }

  lemma TagsSplitSwitchTail(i: nat)
    requires 15 <= i < 19
    ensures SecondField(Values[i].tag).Some?
  {
    if i == 15 {
      assert Values[15].tag == "Switch_errors";
      SecondFieldAt("Switch_errors", 6);
    }
    if i == 16 {
      assert Values[16].tag == "Switch_errors";
      SecondFieldAt("Switch_errors", 6);
    }
    if i == 17 {
      assert Values[17].tag == "Switch_packets";
      SecondFieldAt("Switch_packets", 6);
    }
    if i == 18 {
      assert Values[18].tag == "Switch_packets";
      SecondFieldAt("Switch_packets", 6);
    }
  }

  /** Every shipped tag has a second field, so `tags()` never throws. */
  lemma TagsDefined()
    ensures Tags().Some?
  {
    forall i | 0 <= i < |Values|
      ensures SecondField(Values[i].tag).Some?
    {
      if i < 5 {
        TagsSplitFlow(i);
      } else if i < 10 {
        TagsSplitSwitchErrors(i);
      } else if i < 15 {
        TagsSplitSwitchCounters(i);
      } else {
        TagsSplitSwitchTail(i);
      }
    }
  }

  // No tag outside indices 9 and 10 equals "Switch_bits" ignoring case.
  lemma OtherTagsAreNotSwitchBitsHead(i: nat)
    requires 0 <= i < 9
    ensures !EqualsIgnoreCase(Values[i].tag, "Switch_bits")
  {
    if i == 0 {
      assert Values[0].tag == "Flow_bits";
    }
    if i == 1 {
      assert Values[1].tag == "Flow_bytes";
    }
    if i == 2 {
      assert Values[2].tag == "Flow_packets";
    }
    if i == 3 {
      assert Values[3].tag == "Flow_tableid";
    }
    if i == 4 {
      assert Values[4].tag == "Isl_latency";
      assert !CharEqualsIgnoreCase(Values[4].tag[0], "Switch_bits"[0]);
    }
    if i == 5 {
      assert Values[5].tag == "Switch_collisions";
    }
    if i == 6 {
      assert Values[6].tag == "Switch_crcerror";
    }
    if i == 7 {
      assert Values[7].tag == "Switch_frameerror";
    }
    if i == 8 {
      assert Values[8].tag == "Switch_overerror";
    }
  }

  lemma OtherTagsAreNotSwitchBitsTail(i: nat)
    requires 11 <= i < 19
    ensures !EqualsIgnoreCase(Values[i].tag, "Switch_bits")
  {
    if i == 11 {
      assert Values[11].tag == "Switch_bytes";
    }
    if i == 12 {
      assert Values[12].tag == "Switch_bytes";
    }
    if i == 13 {
      assert Values[13].tag == "Switch_drops";
    }
    if i == 14 {
      assert Values[14].tag == "Switch_drops";
    }
    if i == 15 {
      assert Values[15].tag == "Switch_errors";
    }
    if i == 16 {
      assert Values[16].tag == "Switch_errors";
    }
    if i == 17 {
      assert Values[17].tag == "Switch_packets";
    }
    if i == 18 {
      assert Values[18].tag == "Switch_packets";
    }
  }

  lemma SwitchBitsKey()
    ensures SwitchKey("bits") == "Switch_bits"
  {
  }

  lemma MatchingPair(a: Metric, b: Metric, key: string)
    requires EqualsIgnoreCase(a.tag, key) && EqualsIgnoreCase(b.tag, key)
    ensures Matching([a, b], key) == [a.displayTag, b.displayTag]
  {
    assert [a, b][1..] == [b];
    assert Matching([b], key) == [b.displayTag];
  }

  /** When only the two metrics of a middle block match, the lookup yields their display tags in table order. */
  lemma MatchingAroundPair(before: seq<Metric>, a: Metric, b: Metric, after: seq<Metric>, key: string)
    requires EqualsIgnoreCase(a.tag, key) && EqualsIgnoreCase(b.tag, key)
    requires forall k :: 0 <= k < |before| ==> !EqualsIgnoreCase(before[k].tag, key)
    requires forall k :: 0 <= k < |after| ==> !EqualsIgnoreCase(after[k].tag, key)
    ensures Matching(before + [a, b] + after, key) == [a.displayTag, b.displayTag]
  {
    MatchingNone(before, key);
    MatchingNone(after, key);
    MatchingPair(a, b, key);
    MatchingAppend(before, [a, b], key);
    assert Matching(before + [a, b], key) == [a.displayTag, b.displayTag];
    MatchingAppend(before + [a, b], after, key);
  }

  lemma SwitchBitsOnlyAtNineAndTen(key: string)
    requires key == "Switch_bits"
    ensures forall k :: 0 <= k < 9 ==> !EqualsIgnoreCase(Values[k].tag, key)
    ensures forall k :: 11 <= k < |Values| ==> !EqualsIgnoreCase(Values[k].tag, key)
  {
    forall k | 0 <= k < 9
      ensures !EqualsIgnoreCase(Values[k].tag, key)
    {
      OtherTagsAreNotSwitchBitsHead(k);
    }
    forall k | 11 <= k < |Values|
      ensures !EqualsIgnoreCase(Values[k].tag, key)
    {
      OtherTagsAreNotSwitchBitsTail(k);
    }
  }

  /** `switchValue("bits")` is the receive counter, then the transmit counter, as declared. */
  lemma SwitchValueBits()
    ensures SwitchValue("bits") == ["pen.switch.rx-bits", "pen.switch.tx-bits"]
  {
    var key := "Switch_bits";
    SwitchBitsKey();
    SwitchBitsOnlyAtNineAndTen(key);
    EqualsIgnoreCaseIsEquivalence(key, key, key);
    var before, after := Values[..9], Values[11..];
    assert Values == before + [Values[9], Values[10]] + after;
    assert forall k :: 0 <= k < |after| ==> after[k] == Values[k + 11];
    MatchingAroundPair(before, Values[9], Values[10], after, key);
  }

  /** `list()` holds every display tag exactly once. */
  lemma ListHasEachDisplayTagOnce()
    ensures forall i, j :: 0 <= i < j < |List()| ==> List()[i] != List()[j]
    ensures forall m :: m in Values ==> m.displayTag in List()
  {
  }

  /** Both lookups are empty exactly when no tag matches the prefixed key. */
  lemma LookupsEmptyWithoutMatch(tag: string)
    ensures FlowValue(tag) == [] <==> forall i :: 0 <= i < |Values| ==> !EqualsIgnoreCase(Values[i].tag, "Flow_" + tag)
    ensures SwitchValue(tag) == [] <==> forall i :: 0 <= i < |Values| ==> !EqualsIgnoreCase(Values[i].tag, SwitchKey(tag))
  {
    MatchingSpec(Values, "Flow_" + tag);
    MatchingSpec(Values, SwitchKey(tag));
  }
}
