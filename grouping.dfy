/**
 * `collect_errors`: locating the JSON array in the compiler's output and
 * grouping its records by computed code (a `defaultdict(list)` filled in a loop).
 *
 * The grouping facts are stated for any record type and any key function;
 * `collect_errors` instantiates them with diagnostics and `ComputeErrorCode`.
 */
module Grouping {
  import opened Wrappers
  import opened Strings
  import opened Dicts
  import opened ErrorCodes

  // ---------------------------------------------------------------------------
  // Locating the array: re.search(r"(\[.*?\])", output, re.DOTALL)
  // ---------------------------------------------------------------------------

  const NoArrayMessage := "No JSON array found in the compiler output."

  /**
   * Where the lazy pattern matches: the first '[' of the text and the first ']'
   * after it. There is a match exactly when some '[' is followed somewhere by a ']'.
   */
  function BracketSpan(s: string): (r: Option<(nat, nat)>)
    ensures r.Some? ==> r.value.0 < r.value.1 < |s| && s[r.value.0] == '[' && s[r.value.1] == ']'
    ensures r.Some? ==> forall k :: 0 <= k < r.value.0 ==> s[k] != '['
    ensures r.Some? ==> forall k :: r.value.0 < k < r.value.1 ==> s[k] != ']'
    ensures r.None? <==> forall i, j :: 0 <= i < j < |s| && s[i] == '[' ==> s[j] != ']'
  {
    match IndexFrom(s, '[', 0)
    case None => None
    case Some(i) =>
      match IndexFrom(s, ']', i + 1)
      case None => None
      case Some(j) => Some((i, j))
  }

  /** The text the pattern's group captures, brackets included, or the ValueError. */
  function ExtractArray(output: string): (r: Result<string, PyError>)
    ensures r.Failure? <==> BracketSpan(output).None?
    ensures r.Failure? ==> r.error == ValueError(NoArrayMessage)
    ensures r.Success? ==> |r.value| >= 2 && r.value[0] == '[' && r.value[|r.value| - 1] == ']'
    ensures r.Success? ==> ']' !in r.value[..|r.value| - 1]
    ensures r.Success? ==>
      r.value == output[BracketSpan(output).value.0..BracketSpan(output).value.1 + 1]
  {
    match BracketSpan(output)
    case None => Failure(ValueError(NoArrayMessage))
    case Some((i, j)) => Success(output[i..j + 1])
  }

  // ---------------------------------------------------------------------------
  // Grouping by key
  // ---------------------------------------------------------------------------

  /** A grouped result: key to the records carrying it. */
  type Groups<T> = Dict<seq<T>>

  /** The records of `es` whose key is `key`, in input order. */
  function Matching<T(==)>(es: seq<T>, keyOf: T -> string, key: string): seq<T>
  {
    if es == [] then []
    else
      var last := es[|es| - 1];
      Matching(es[..|es| - 1], keyOf, key) + (if keyOf(last) == key then [last] else [])
  }

  /** The distinct keys of `es`, in order of first appearance. */
  function KeysInOrder<T(==)>(es: seq<T>, keyOf: T -> string): seq<string>
  {
    if es == [] then []
    else
      var ks := KeysInOrder(es[..|es| - 1], keyOf);
      var c := keyOf(es[|es| - 1]);
      if c in ks then ks else ks + [c]
  }

  /** The set of keys of `es`. */
  function KeySet<T(==)>(es: seq<T>, keyOf: T -> string): set<string>
  {
    set e | e in es :: keyOf(e)
  }

  /**
   * What grouping must produce: one group per distinct key, in order of first
   * appearance, each holding every record with that key in input order.
   */
  function Grouped<T(==)>(es: seq<T>, keyOf: T -> string): Groups<T>
  {
    var ks := KeysInOrder(es, keyOf);
    seq(|ks|, k requires 0 <= k < |ks| => (ks[k], Matching(es, keyOf, ks[k])))
  }

  /** `grouped[key].append(e)` on a `defaultdict(list)`. */
  function AddToGroup<T(==)>(g: Groups<T>, key: string, e: T): Groups<T>
  {
    Put(g, key, match Get(g, key) case Some(rs) => rs + [e] case None => [e])
  }

  /**
   * The grouping loop of `collect_errors`: `grouped[keyOf(e)].append(e)` for
   * each record in turn.
   */
  method GroupBy<T(==)>(errors: seq<T>, keyOf: T -> string) returns (groups: Groups<T>)
    ensures groups == Grouped(errors, keyOf)
  {
    groups := [];
    for i := 0 to |errors|
      invariant groups == Grouped(errors[..i], keyOf)
    {
      var errorCode := keyOf(errors[i]);
      GroupedStep(errors[..i], keyOf, errors[i]);
      assert errors[..i + 1] == errors[..i] + [errors[i]];
      groups := AddToGroup(groups, errorCode, errors[i]);
    }
    assert errors[..|errors|] == errors;
  }

  /**
   * `collect_errors`: the array text is handed to `parseJson` (standing for
   * `json.loads`, which fails with a message), and the records are grouped.
   */
  method CollectErrors(output: string, parseJson: string -> Result<seq<Diagnostic>, string>)
    returns (r: Result<Groups<Diagnostic>, PyError>)
    ensures ExtractArray(output).Failure? ==> r == Failure(ValueError(NoArrayMessage))
    ensures ExtractArray(output).Success? && parseJson(ExtractArray(output).value).Failure? ==>
              r == Failure(ValueError("Error parsing JSON: " + parseJson(ExtractArray(output).value).error))
    ensures ExtractArray(output).Success? && parseJson(ExtractArray(output).value).Success? ==>
              r == Success(Grouped(parseJson(ExtractArray(output).value).value, ComputeErrorCode))
  {
    var matchObj := ExtractArray(output);
    if matchObj.Failure? {
      return Failure(matchObj.error);
    }
    var errorsList := parseJson(matchObj.value);
    if errorsList.Failure? {
      return Failure(ValueError("Error parsing JSON: " + errorsList.error));
    }
    var grouped := GroupBy(errorsList.value, ComputeErrorCode);
    return Success(grouped);
  }

  // ---------------------------------------------------------------------------
  // Facts about the specification
  // ---------------------------------------------------------------------------

  lemma KeySetSnoc<T>(es: seq<T>, keyOf: T -> string, x: T)
    ensures KeySet(es + [x], keyOf) == KeySet(es, keyOf) + {keyOf(x)}
  {
    var s := es + [x];
    forall c | c in KeySet(s, keyOf) ensures c in KeySet(es, keyOf) + {keyOf(x)} {
      var e :| e in s && keyOf(e) == c;
      if e != x { assert e in es; }
    }
    forall c | c in KeySet(es, keyOf) ensures c in KeySet(s, keyOf) {
      var e :| e in es && keyOf(e) == c;
      assert e in s;
    }
    assert x in s;
  }

  /** The keys in order are exactly the keys of the records, each listed once. */
  lemma {:induction false} KeysInOrderFacts<T>(es: seq<T>, keyOf: T -> string)
    ensures forall c :: c in KeysInOrder(es, keyOf) <==> c in KeySet(es, keyOf)
    ensures forall i, j :: 0 <= i < j < |KeysInOrder(es, keyOf)| ==>
              KeysInOrder(es, keyOf)[i] != KeysInOrder(es, keyOf)[j]
  {
    if es != [] {
      var init := es[..|es| - 1];
      var x := es[|es| - 1];
      assert es == init + [x];
      KeysInOrderFacts(init, keyOf);
      KeySetSnoc(init, keyOf, x);
    }
  }

  /** A record is in the `key` subsequence exactly when it is an input record with key `key`. */
  lemma {:induction false} MatchingMembers<T>(es: seq<T>, keyOf: T -> string, key: string, x: T)
    ensures x in Matching(es, keyOf, key) <==> x in es && keyOf(x) == key
  {
    if es != [] {
      var init := es[..|es| - 1];
      assert es == init + [es[|es| - 1]];
      MatchingMembers(init, keyOf, key, x);
    }
  }

  lemma MatchingEmpty<T>(es: seq<T>, keyOf: T -> string, key: string)
    requires key !in KeySet(es, keyOf)
    ensures Matching(es, keyOf, key) == []
  {
    if Matching(es, keyOf, key) != [] {
      var x := Matching(es, keyOf, key)[0];
      MatchingMembers(es, keyOf, key, x);
    }
  }

  /** Grouping one more record is one `defaultdict` append on the grouping so far. */
  lemma GroupedStep<T>(es: seq<T>, keyOf: T -> string, x: T)
    ensures Grouped(es + [x], keyOf) == AddToGroup(Grouped(es, keyOf), keyOf(x), x)
  {
    var s := es + [x];
    assert s[..|s| - 1] == es;
    var c := keyOf(x);
    var ks := KeysInOrder(es, keyOf);
    var g := Grouped(es, keyOf);
    KeysInOrderFacts(es, keyOf);
    var r := AddToGroup(g, c, x);
    if c in ks {
      var m :| 0 <= m < |ks| && ks[m] == c;
      var f := FindKey(g, c);
      assert g[m].0 == c;
      assert f.Some? && f.value == m;
      assert Get(g, c) == Some(Matching(es, keyOf, c));
      assert r == g[m := (c, Matching(es, keyOf, c) + [x])];
      assert KeysInOrder(s, keyOf) == ks;
      var gs := Grouped(s, keyOf);
      assert |gs| == |r|;
      forall k | 0 <= k < |r| ensures gs[k] == r[k] {
        assert gs[k] == (ks[k], Matching(s, keyOf, ks[k]));
        assert Matching(s, keyOf, ks[k]) == Matching(es, keyOf, ks[k]) + (if c == ks[k] then [x] else []);
        if k == m {
          assert r[k] == (c, Matching(es, keyOf, c) + [x]);
          assert Matching(s, keyOf, ks[k]) == Matching(es, keyOf, c) + [x];
          assert gs[k] == r[k];
        } else {
          assert ks[k] != c;
          assert r[k] == g[k] == (ks[k], Matching(es, keyOf, ks[k]));
          assert Matching(s, keyOf, ks[k]) == Matching(es, keyOf, ks[k]);
          assert gs[k] == r[k];
        }
      }
    } else {
      MatchingEmpty(es, keyOf, c);
      var f := FindKey(g, c);
      assert f.None?;
      assert r == g + [(c, [x])];
      var ks' := ks + [c];
      assert KeysInOrder(s, keyOf) == ks';
      var gs := Grouped(s, keyOf);
      assert |gs| == |r|;
      forall k | 0 <= k < |r| ensures gs[k] == r[k] {
        var key := ks'[k];
        assert gs[k] == (key, Matching(s, keyOf, key));
        assert Matching(s, keyOf, key) == Matching(es, keyOf, key) + (if c == key then [x] else []);
        if k == |ks| {
          assert r[k] == (c, [x]);
          assert key == c;
          assert Matching(es, keyOf, c) == [];
          assert Matching(s, keyOf, c) == [x];
          assert gs[k] == r[k];
        } else {
          assert key == ks[k] != c;
          assert r[k] == g[k] == (ks[k], Matching(es, keyOf, ks[k]));
          assert Matching(s, keyOf, key) == Matching(es, keyOf, key);
          assert gs[k] == r[k];
        }
      }
    }
  }

  /** Total number of records over all groups. */
  function TotalSize<T(==)>(g: Groups<T>): nat
  {
    if g == [] then 0 else |g[0].1| + TotalSize(g[1..])
  }

  lemma {:induction false} TotalSizeUpdate<T>(g: Groups<T>, m: nat, item: (string, seq<T>))
    requires m < |g|
    ensures TotalSize(g[m := item]) + |g[m].1| == TotalSize(g) + |item.1|
  {
    if m > 0 {
      assert g[m := item][1..] == g[1..][m - 1 := item];
      TotalSizeUpdate(g[1..], m - 1, item);
    } else {
      assert g[m := item][1..] == g[1..];
    }
  }

  lemma {:induction false} TotalSizeAppend<T>(g: Groups<T>, item: (string, seq<T>))
    ensures TotalSize(g + [item]) == TotalSize(g) + |item.1|
  {
    if g != [] {
      assert (g + [item])[1..] == g[1..] + [item];
      TotalSizeAppend(g[1..], item);
    } else {
      assert ([] + [item])[1..] == [];
    }
  }

  /** Nothing is lost or added: the group sizes sum to the number of records. */
  lemma {:induction false} GroupSizesSum<T>(es: seq<T>, keyOf: T -> string)
    ensures TotalSize(Grouped(es, keyOf)) == |es|
  {
    if es == [] {
      assert Grouped(es, keyOf) == [];
    } else {
      var init := es[..|es| - 1];
      var x := es[|es| - 1];
      assert es == init + [x];
      GroupSizesSum(init, keyOf);
      GroupedStep(init, keyOf, x);
      var g := Grouped(init, keyOf);
      var c := keyOf(x);
      match FindKey(g, c)
      case Some(m) => TotalSizeUpdate(g, m, (c, g[m].1 + [x]));
      case None => TotalSizeAppend(g, (c, [x]));
    }
  }

  lemma {:induction false} DistinctCardinality(s: seq<string>)
    requires forall i, j :: 0 <= i < j < |s| ==> s[i] != s[j]
    ensures |set x | x in s| == |s|
  {
    if s != [] {
      var init := s[..|s| - 1];
      var last := s[|s| - 1];
      DistinctCardinality(init);
      assert (set x | x in s) == (set x | x in init) + {last};
      assert last !in (set x | x in init);
    }
  }

  /** There is one group per distinct key. */
  lemma GroupCount<T>(es: seq<T>, keyOf: T -> string)
    ensures |Grouped(es, keyOf)| == |KeySet(es, keyOf)|
  {
    var ks := KeysInOrder(es, keyOf);
    KeysInOrderFacts(es, keyOf);
    DistinctCardinality(ks);
    assert (set x | x in ks) == KeySet(es, keyOf);
  }

  /** The group keys are distinct: the result is a well-formed dict. */
  lemma GroupedDistinct<T>(es: seq<T>, keyOf: T -> string)
    ensures DistinctKeys(Grouped(es, keyOf))
  {
    KeysInOrderFacts(es, keyOf);
  }

  /**
   * Every record has a group under its own key, is in it, and appears in no
   * group under any other key.
   */
  lemma RecordPlacement<T>(es: seq<T>, keyOf: T -> string, i: nat)
    requires i < |es|
    ensures Get(Grouped(es, keyOf), keyOf(es[i])).Some?
    ensures es[i] in Get(Grouped(es, keyOf), keyOf(es[i])).value
    ensures forall k :: 0 <= k < |Grouped(es, keyOf)| && es[i] in Grouped(es, keyOf)[k].1 ==>
              Grouped(es, keyOf)[k].0 == keyOf(es[i])
  {
    var g := Grouped(es, keyOf);
    var c := keyOf(es[i]);
    KeysInOrderFacts(es, keyOf);
    assert c in KeySet(es, keyOf);
    var ks := KeysInOrder(es, keyOf);
    var m :| 0 <= m < |ks| && ks[m] == c;
    assert g[m].0 == c;
    GroupedDistinct(es, keyOf);
    GetItem(g, m);
    MatchingMembers(es, keyOf, c, es[i]);
    forall k | 0 <= k < |g| && es[i] in g[k].1 ensures g[k].0 == c {
      MatchingMembers(es, keyOf, g[k].0, es[i]);
    }
  }

  /** Identical records are not merged: a group keeps every copy. */
  lemma {:induction false} GroupKeepsDuplicates<T>(es: seq<T>, keyOf: T -> string, x: T)
    ensures multiset(Matching(es, keyOf, keyOf(x)))[x] == multiset(es)[x]
  {
    if es != [] {
      var init := es[..|es| - 1];
      assert es == init + [es[|es| - 1]];
      GroupKeepsDuplicates(init, keyOf, x);
    }
  }

  /** Input order is kept: the records of a concatenation group as the two parts, in order. */
  lemma {:induction false} MatchingConcat<T>(a: seq<T>, b: seq<T>, keyOf: T -> string, key: string)
    ensures Matching(a + b, keyOf, key) == Matching(a, keyOf, key) + Matching(b, keyOf, key)
    decreases |b|
  {
    if b == [] {
      assert a + b == a;
    } else {
      var init := b[..|b| - 1];
      assert a + b == (a + init) + [b[|b| - 1]];
      assert (a + b)[..|a + b| - 1] == a + init;
      MatchingConcat(a, init, keyOf, key);
    }
  }

  /** The sample of the repository's test groups into exactly these four groups. */
  lemma SampleGrouping()
    ensures |Grouped(Sample(), ComputeErrorCode)| == 4
    ensures Grouped(Sample(), ComputeErrorCode)[0].0 == "N01005"
    ensures |Grouped(Sample(), ComputeErrorCode)[0].1| == 4
    ensures Grouped(Sample(), ComputeErrorCode)[1].0 == "W02004"
    ensures |Grouped(Sample(), ComputeErrorCode)[1].1| == 1
    ensures Grouped(Sample(), ComputeErrorCode)[2].0 == "Lint W04004"
    ensures |Grouped(Sample(), ComputeErrorCode)[2].1| == 1
    ensures Grouped(Sample(), ComputeErrorCode)[3].0 == "Lint W04001"
    ensures |Grouped(Sample(), ComputeErrorCode)[3].1| == 1
  {
    SampleKeys();
    SampleSizes();
  }

  /** The sample's codes in order of first appearance. */
  lemma SampleKeys()
    ensures KeysInOrder(Sample(), ComputeErrorCode) == ["N01005", "W02004", "Lint W04004", "Lint W04001"]
  {
    var s := Sample();
    SampleCodes();
    assert ComputeErrorCode(s[1]) == "N01005" && ComputeErrorCode(s[2]) == "N01005" && ComputeErrorCode(s[3]) == "N01005";
    KeysOfSample(s, ComputeErrorCode);
  }

  /** Keys in order of seven records keyed like the sample. */
  lemma KeysOfSample<T>(s: seq<T>, key: T -> string)
    requires |s| == 7
    requires key(s[0]) == key(s[1]) == key(s[2]) == key(s[3]) == "N01005"
    requires key(s[4]) == "W02004" && key(s[5]) == "Lint W04004" && key(s[6]) == "Lint W04001"
    ensures KeysInOrder(s, key) == ["N01005", "W02004", "Lint W04004", "Lint W04001"]
  {
    assert forall k :: 0 <= k < 7 ==> s[..k + 1][..k] == s[..k];
    assert s[..7] == s;
    assert KeysInOrder(s[..1], key) == ["N01005"];
    assert KeysInOrder(s[..2], key) == ["N01005"];
    assert KeysInOrder(s[..3], key) == ["N01005"];
    assert KeysInOrder(s[..4], key) == ["N01005"];
    assert KeysInOrder(s[..5], key) == ["N01005", "W02004"];
    assert "Lint W04004"[0] != "N01005"[0] && "Lint W04004"[0] != "W02004"[0];
    assert KeysInOrder(s[..6], key) == ["N01005", "W02004", "Lint W04004"];
    assert "Lint W04001"[10] != "Lint W04004"[10];
    assert KeysInOrder(s[..7], key) == ["N01005", "W02004", "Lint W04004", "Lint W04001"];
  }

  /** The sizes of the sample's four groups. */
  lemma SampleSizes()
    ensures |Matching(Sample(), ComputeErrorCode, "N01005")| == 4
    ensures |Matching(Sample(), ComputeErrorCode, "W02004")| == 1
    ensures |Matching(Sample(), ComputeErrorCode, "Lint W04004")| == 1
    ensures |Matching(Sample(), ComputeErrorCode, "Lint W04001")| == 1
  {
    var s := Sample();
    SampleCodes();
    assert ComputeErrorCode(s[1]) == "N01005" && ComputeErrorCode(s[2]) == "N01005" && ComputeErrorCode(s[3]) == "N01005";
    SizesOfSample(s, ComputeErrorCode);
  }

  /** Group sizes of seven records keyed like the sample. */
  lemma SizesOfSample<T>(s: seq<T>, key: T -> string)
    requires |s| == 7
    requires key(s[0]) == key(s[1]) == key(s[2]) == key(s[3]) == "N01005"
    requires key(s[4]) == "W02004" && key(s[5]) == "Lint W04004" && key(s[6]) == "Lint W04001"
    ensures |Matching(s, key, "N01005")| == 4
    ensures |Matching(s, key, "W02004")| == 1
    ensures |Matching(s, key, "Lint W04004")| == 1
    ensures |Matching(s, key, "Lint W04001")| == 1
  {
    assert forall k :: 0 <= k < 7 ==> s[..k + 1][..k] == s[..k];
    assert s[..7] == s;
    assert "Lint W04004"[0] != "N01005"[0] && "Lint W04004"[0] != "W02004"[0];
    assert "Lint W04001"[0] != "N01005"[0] && "Lint W04001"[0] != "W02004"[0];
    assert "W02004"[0] != "N01005"[0];
    assert "Lint W04001"[10] != "Lint W04004"[10];
    assert |Matching(s[..1], key, "N01005")| == 1;
    assert |Matching(s[..2], key, "N01005")| == 2;
    assert |Matching(s[..3], key, "N01005")| == 3;
    assert |Matching(s[..4], key, "N01005")| == 4;
    assert |Matching(s[..5], key, "N01005")| == 4;
    assert |Matching(s[..6], key, "N01005")| == 4;
    assert |Matching(s[..7], key, "N01005")| == 4;
    assert |Matching(s[..1], key, "W02004")| == 0;
    assert |Matching(s[..2], key, "W02004")| == 0;
    assert |Matching(s[..3], key, "W02004")| == 0;
    assert |Matching(s[..4], key, "W02004")| == 0;
    assert |Matching(s[..5], key, "W02004")| == 1;
    assert |Matching(s[..6], key, "W02004")| == 1;
    assert |Matching(s[..7], key, "W02004")| == 1;
    assert |Matching(s[..1], key, "Lint W04004")| == 0;
    assert |Matching(s[..2], key, "Lint W04004")| == 0;
    assert |Matching(s[..3], key, "Lint W04004")| == 0;
    assert |Matching(s[..4], key, "Lint W04004")| == 0;
    assert |Matching(s[..5], key, "Lint W04004")| == 0;
    assert |Matching(s[..6], key, "Lint W04004")| == 1;
    assert |Matching(s[..7], key, "Lint W04004")| == 1;
    assert |Matching(s[..1], key, "Lint W04001")| == 0;
    assert |Matching(s[..2], key, "Lint W04001")| == 0;
    assert |Matching(s[..3], key, "Lint W04001")| == 0;
    assert |Matching(s[..4], key, "Lint W04001")| == 0;
    assert |Matching(s[..5], key, "Lint W04001")| == 0;
    assert |Matching(s[..6], key, "Lint W04001")| == 0;
    assert |Matching(s[..7], key, "Lint W04001")| == 1;
  }
}
