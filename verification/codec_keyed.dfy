/** Repeated fields whose keys have to differ: what is left to print or to parse, with the set of
    keys met so far. */
module Keyed {
  import opened Basics
  import opened Formats
  import opened Messages
  import opened Streams

  ghost predicate DistinctKeys(rule: Rule, values: seq<Value>) {
    values == [] ||
    (DistinctKeys(rule, values[..|values| - 1]) && KeyOf(rule, values[|values| - 1]) !in KeySet(rule, values[..|values| - 1]))
  }

  lemma {:induction false} MoreKeys(rule: Rule, values: seq<Value>, v: Value)
    ensures KeySet(rule, values + [v]) == KeySet(rule, values) + {KeyOf(rule, v)}
    ensures DistinctKeys(rule, values + [v]) <==> DistinctKeys(rule, values) && KeyOf(rule, v) !in KeySet(rule, values)
  {
    assert (values + [v])[..|values|] == values;
  }

  lemma {:induction false} KeySetMember(rule: Rule, values: seq<Value>, key: Value)
    ensures key in KeySet(rule, values) <==> exists i :: 0 <= i < |values| && KeyOf(rule, values[i]) == key
  {
    if values != [] {
      KeySetMember(rule, values[..|values| - 1], key);
    }
  }

  lemma {:induction false} DistinctPrefix(rule: Rule, values: seq<Value>, n: nat)
    requires DistinctKeys(rule, values) && n <= |values|
    ensures DistinctKeys(rule, values[..n])
  {
    if n == |values| {
      assert values[..n] == values;
    } else {
      assert values[..n] == values[..|values| - 1][..n];
      DistinctPrefix(rule, values[..|values| - 1], n);
    }
  }

  ghost predicate PairwiseDistinct(rule: Rule, values: seq<Value>) {
    forall i, j :: 0 <= i < j < |values| ==> KeyOf(rule, values[i]) != KeyOf(rule, values[j])
  }

  lemma {:induction false} DistinctIsPairwise(rule: Rule, values: seq<Value>)
    ensures DistinctKeys(rule, values) <==> PairwiseDistinct(rule, values)
  {
    if values != [] {
      var front, last := values[..|values| - 1], values[|values| - 1];
      DistinctIsPairwise(rule, front);
      KeySetMember(rule, front, KeyOf(rule, last));
      assert values == front + [last];
    }
  }

  /** The rule of the format is that no key comes twice. */
  lemma {:induction false} DistinctHolds(rule: Rule, values: seq<Value>)
    requires IsDistinctRule(rule)
    ensures Holds(rule, Many(values)) <==> DistinctKeys(rule, values)
  {
    DistinctIsPairwise(rule, values);
    assert Holds(rule, Many(values)) <==> PairwiseDistinct(rule, values);
  }

  /** The texts are the keys of the values. */
  ghost predicate Names(texts: set<Text>, keys: set<Value>) {
    forall text: Text :: text in texts <==> Raw(text) in keys
  }

  // ----- printing -----

  /** What is left to print after the first `i` values, when all keys are distinct. */
  ghost predicate KeyedLeft(total: Option<seq<Byte>>, done: seq<Byte>, each: Format, rule: Rule, values: seq<Value>, i: nat)
    requires i <= |values|
  {
    && DistinctKeys(rule, values[..i])
    && if DistinctKeys(rule, values) then LeftAll(total, done, each, values[i..], Nothing, Unit) else total == None
  }

  lemma {:induction false} KeyedStart(total: Option<seq<Byte>>, done: seq<Byte>, f: Format, rule: Rule, values: seq<Value>)
    requires f.Repeat? && IsDistinctRule(rule)
    requires Left(total, done, Check(f, rule), Many(values)) && |values| <= f.maximum && |values| < Power(f.prefix)
    ensures KeyedLeft(total, done + ToBytes(|values|, f.prefix), f.each, rule, values, 0)
    ensures KeySet(rule, values[..0]) == {}
  {
    DistinctHolds(rule, values);
    LeftCheck(total, done, f, rule, Many(values));
    assert values[0..] == values;
    if DistinctKeys(rule, values) {
      LeftRepeatLast(total, done, f, values);
    }
  }

  lemma {:induction false} KeyedNext(total: Option<seq<Byte>>, done: seq<Byte>, each: Format, rule: Rule, values: seq<Value>, i: nat)
    requires i < |values| && KeyedLeft(total, done, each, rule, values, i)
    ensures KeySet(rule, values[..i + 1]) == KeySet(rule, values[..i]) + {KeyOf(rule, values[i])}
    ensures KeyOf(rule, values[i]) in KeySet(rule, values[..i]) || !Fits(each, values[i]) ==> total == None
    ensures KeyOf(rule, values[i]) !in KeySet(rule, values[..i]) && Fits(each, values[i]) ==>
              KeyedLeft(total, done + Print(each, values[i]), each, rule, values, i + 1)
  {
    assert values[..i + 1] == values[..i] + [values[i]];
    MoreKeys(rule, values[..i], values[i]);
    if DistinctKeys(rule, values) {
      DistinctPrefix(rule, values, i + 1);
      assert values[i..][0] == values[i] && values[i..][1..] == values[i + 1..];
      LeftNext(total, done, each, values[i..], Nothing, Unit);
    }
  }

  /** The first fault in printing values with distinct keys: a repeated key, or a value beyond a limit;
      when there is none, only the size of the payload is left. */
  function KeyedFault(each: Format, rule: Rule, values: seq<Value>, i: nat): SchemaError
    requires i <= |values|
    decreases |values| - i
  {
    if i == |values| then LimitExceeded
    else if KeyOf(rule, values[i]) in KeySet(rule, values[..i]) then Malformed
    else if !Fits(each, values[i]) then LimitExceeded
    else KeyedFault(each, rule, values, i + 1)
  }

  lemma {:induction false} FaultNext(each: Format, rule: Rule, values: seq<Value>, i: nat)
    requires i < |values|
    ensures KeyedFault(each, rule, values, i) ==
            if KeyOf(rule, values[i]) in KeySet(rule, values[..i]) then Malformed
            else if !Fits(each, values[i]) then LimitExceeded
            else KeyedFault(each, rule, values, i + 1)
  {
  }

  lemma {:induction false} KeyedEnd(total: Option<seq<Byte>>, done: seq<Byte>, each: Format, rule: Rule, values: seq<Value>)
    requires KeyedLeft(total, done, each, rule, values, |values|)
    ensures total == Some(done)
  {
    assert values[..|values|] == values && values[|values|..] == [];
    LeftNone(total, done, each, Nothing, Unit);
    LeftNothing(total, done);
  }

  // ----- parsing -----

  /** What is left to parse after `done`, with the set of its keys, and the fault should it fail. */
  ghost predicate KeyedAhead(total: Option<Parsed<seq<Value>>>, fault: SchemaError, each: Format, rule: Rule, done: seq<Value>, keys: set<Text>,
                             left: nat, bytes: seq<Byte>) {
    && DistinctKeys(rule, done) && Names(keys, KeySet(rule, done))
    && Ahead(total, done, each, left, bytes) && fault == KeyedError(rule, each, left, bytes, done)
  }

  lemma {:induction false} KeyedAheadStart(each: Format, rule: Rule, count: nat, bytes: seq<Byte>)
    ensures KeyedAhead(ParseAll(each, count, bytes), KeyedError(rule, each, count, bytes, []), each, rule, [], {}, count, bytes)
  {
    AheadStart(each, count, bytes);
  }

  lemma {:induction false} KeyedAheadDone(total: Option<Parsed<seq<Value>>>, fault: SchemaError, each: Format, rule: Rule, done: seq<Value>, keys: set<Text>,
                                          bytes: seq<Byte>)
    requires KeyedAhead(total, fault, each, rule, done, keys, 0, bytes)
    ensures total == Some(Parsed(done, bytes)) && DistinctKeys(rule, done)
  {
    AheadDone(total, done, each, bytes);
  }

  /** A repeated key spoils the whole list, whatever follows. */
  lemma {:induction false} KeyRepeated(total: Option<Parsed<seq<Value>>>, done: seq<Value>, each: Format, rule: Rule, left: nat, before: seq<Byte>)
    requires Ahead(total, done, each, left, before) && left > 0 && IsDistinctRule(rule)
    requires Parse(each, before).Some? ==> KeyOf(rule, Parse(each, before).value.value) in KeySet(rule, done)
    ensures total.Some? ==> !Holds(rule, Many(total.value.value))
    ensures KeyedError(rule, each, left, before, done) == StepError(rule, each, before, KeySet(rule, done))
  {
    AheadNext(total, done, each, left, before);
    KeyedErrorNext(rule, each, left, before, done);
    if total.Some? {
      var all, next := total.value.value, Parse(each, before).value.value;
      MoreKeys(rule, done, next);
      assert all[..|done| + 1] == done + [next];
      DistinctHolds(rule, all);
      if DistinctKeys(rule, all) {
        DistinctPrefix(rule, all, |done| + 1);
      }
    }
  }

  lemma {:induction false} KeyAccepted(total: Option<Parsed<seq<Value>>>, done: seq<Value>, each: Format, rule: Rule, left: nat, before: seq<Byte>,
                                       v: Value, after: seq<Byte>)
    requires Ahead(total, done, each, left, before) && left > 0
    requires Parse(each, before) == Some(Parsed(v, after)) && DistinctKeys(rule, done) && KeyOf(rule, v) !in KeySet(rule, done)
    ensures Ahead(total, done + [v], each, left - 1, after)
    ensures DistinctKeys(rule, done + [v]) && KeySet(rule, done + [v]) == KeySet(rule, done) + {KeyOf(rule, v)}
    ensures KeyedError(rule, each, left, before, done) == KeyedError(rule, each, left - 1, after, done + [v])
  {
    AheadNext(total, done, each, left, before);
    KeyedErrorNext(rule, each, left, before, done);
    MoreKeys(rule, done, v);
  }

  lemma {:induction false} KeyedErrorNext(rule: Rule, each: Format, left: nat, bytes: seq<Byte>, done: seq<Value>)
    requires left > 0
    ensures KeyedError(rule, each, left, bytes, done) ==
            var parsed := Parse(each, bytes);
            if parsed.Some? && KeyOf(rule, parsed.value.value) !in KeySet(rule, done)
            then KeyedError(rule, each, left - 1, parsed.value.rest, done + [parsed.value.value])
            else StepError(rule, each, bytes, KeySet(rule, done))
  {
  }
}
