/**
 * The loaded prompt registry shared by both `PromptLoader` classes: a
 * two-level dictionary namespace -> prompt name -> entry, the parsing of
 * "namespace.prompt_name" paths, and the listing of every path.
 */
module PromptRegistry {
  import opened Wrappers
  import opened Strings
  import opened Dicts

  /**
   * One prompt's YAML mapping, key -> value; a YAML null value is None.
   * A null entry is represented by the empty mapping: both are falsy.
   */
  type Entry = map<string, Option<string>>

  /** The prompts of one YAML file, in file order. */
  type Namespace = Dict<Entry>

  /** `self.prompts`: the namespaces in load order. */
  type Prompts = Dict<Namespace>

  /** Python dicts at both levels: no namespace and no prompt name repeats. */
  predicate WellFormed(p: Prompts)
  {
    DistinctKeys(p) && forall i :: 0 <= i < |p| ==> DistinctKeys(p[i].1)
  }

  const PathFormatMessage := "Prompt path should be in format 'namespace.prompt_name'"

  /**
   * `prompt_path.split('.')` and the two-part test: exactly one '.' gives the
   * namespace and the prompt name on either side of it; anything else is a
   * ValueError.
   */
  function ParsePath(path: string): (r: Result<(string, string), PyError>)
    ensures r.Success? <==> CountChar(path, '.') == 1
    ensures r.Failure? ==> r.error == ValueError(PathFormatMessage)
    ensures r.Success? ==> path == JoinPath(r.value.0, r.value.1)
    ensures r.Success? ==> '.' !in r.value.0 && '.' !in r.value.1
  {
    var parts := Split(path, '.');
    if |parts| != 2 then Failure(ValueError(PathFormatMessage))
    else
      JoinSplit(path, '.');
      assert Join(parts, '.') == parts[0] + ['.'] + parts[1];
      Success((parts[0], parts[1]))
  }

  /** `f"{namespace}.{prompt_name}"`. */
  function JoinPath(ns: string, name: string): string
  {
    ns + "." + name
  }

  /** Dot-free names joined into a path parse back into those names. */
  lemma ParseJoinPath(ns: string, name: string)
    requires '.' !in ns && '.' !in name
    ensures ParsePath(JoinPath(ns, name)) == Success((ns, name))
  {
    SplitTwo(ns, '.', name);
    assert JoinPath(ns, name) == ns + ['.'] + name;
  }

  /** A namespace with a '.' (a file named "a.b.yaml") lists a path that does not parse. */
  lemma DottedNamespaceUnreachable()
    ensures Paths([("a.b", [("c", map["content" := Some("x")])])]) == ["a.b.c"]
    ensures ParsePath("a.b.c") == Failure(ValueError(PathFormatMessage))
  {
    var p: Prompts := [("a.b", [("c", map["content" := Some("x")])])];
    assert p[..0] == [];
    assert Pairs(p) == [("a.b", "c")];
    assert Paths(p) == Render([("a.b", "c")]);
    assert Paths(p)[0] == JoinPath("a.b", "c") == "a.b.c";
    assert CountChar("a.b.c", '.') == 2;
  }

  /**
   * Any namespace with a '.' in it makes every path built on it unparsable,
   * whatever the prompt name: the path has at least two dots.
   */
  lemma DottedNamespaceRejected(ns: string, name: string)
    requires '.' in ns
    ensures ParsePath(JoinPath(ns, name)) == Failure(ValueError(PathFormatMessage))
  {
    CountCharZero(ns, '.');
    CountCharConcat(ns, "." + name, '.');
    CountCharConcat(".", name, '.');
    assert JoinPath(ns, name) == ns + ("." + name);
  }

  /**
   * `self.prompts[namespace].get(prompt_name)` behind the membership test
   * `namespace not in self.prompts`: None when either level is missing.
   */
  function LookupEntry(p: Prompts, ns: string, name: string): Option<Entry>
  {
    match Get(p, ns)
    case None => None
    case Some(n) => Get(n, name)
  }

  /**
   * `prompt_data[key]` guarded by `key in prompt_data`, or `prompt_data.get(key)`:
   * the value under `key`, None when the key is absent or its value is null.
   */
  function Field(e: Entry, key: string): (r: Option<string>)
    ensures key !in e ==> r.None?
    ensures key in e ==> r == e[key]
  {
    if key in e then e[key] else None
  }

  /**
   * `get_prompt_description` of both loaders (key "description") and
   * `get_prompt` of the content-only loader (key "content"): parse the path,
   * look the entry up, and read `key` of a non-empty entry that has it.
   */
  function LookupField(p: Prompts, path: string, key: string): (r: Result<Option<string>, PyError>)
    ensures r.Failure? <==> CountChar(path, '.') != 1
    ensures r.Failure? ==> r.error == ValueError(PathFormatMessage)
    ensures r.Success? ==>
      var (ns, name) := ParsePath(path).value;
      r.value == if LookupEntry(p, ns, name).Some? then Field(LookupEntry(p, ns, name).value, key) else None
    ensures r.Success? && r.value.Some? ==>
      var (ns, name) := ParsePath(path).value;
      LookupEntry(p, ns, name).Some? && key in LookupEntry(p, ns, name).value
  {
    match ParsePath(path)
    case Failure(e) => Failure(e)
    case Success((ns, name)) =>
      match LookupEntry(p, ns, name)
      case None => Success(None)
      case Some(e) => Success(if e != map[] then Field(e, key) else None)
  }

  /** A listed prompt's path reads `key` of that prompt's own entry. */
  lemma LookupFieldListed(p: Prompts, i: nat, j: nat, key: string)
    requires WellFormed(p) && i < |p| && j < |p[i].1|
    requires '.' !in p[i].0 && '.' !in p[i].1[j].0
    ensures LookupField(p, JoinPath(p[i].0, p[i].1[j].0), key) == Success(Field(p[i].1[j].1, key))
  {
    ParseJoinPath(p[i].0, p[i].1[j].0);
    LookupListed(p, i, j);
  }

  /** A well-formed path that names no listed prompt reads None. */
  lemma LookupFieldUnlisted(p: Prompts, path: string, key: string)
    requires WellFormed(p) && CountChar(path, '.') == 1 && ParsePath(path).value !in Pairs(p)
    ensures LookupField(p, path, key) == Success(None)
  {
    var (ns, name) := ParsePath(path).value;
    LookupIffListed(p, ns, name);
  }

  // ---------------------------------------------------------------------------
  // Listing: `for namespace, prompts in self.prompts.items(): for prompt_name in prompts.keys()`
  // ---------------------------------------------------------------------------

  /** The (namespace, prompt name) pairs of one namespace, in its order. */
  function NamePairs(ns: string, n: Namespace): (r: seq<(string, string)>)
    ensures |r| == |n|
    ensures forall j :: 0 <= j < |n| ==> r[j] == (ns, n[j].0)
  {
    seq(|n|, j requires 0 <= j < |n| => (ns, n[j].0))
  }

  /** Every (namespace, prompt name) pair, namespace by namespace in dict order. */
  function Pairs(p: Prompts): seq<(string, string)>
  {
    if p == [] then [] else Pairs(p[..|p| - 1]) + NamePairs(p[|p| - 1].0, p[|p| - 1].1)
  }

  /** Pairs rendered as paths. */
  function Render(ps: seq<(string, string)>): (r: seq<string>)
    ensures |r| == |ps|
    ensures forall k :: 0 <= k < |ps| ==> r[k] == JoinPath(ps[k].0, ps[k].1)
  {
    seq(|ps|, k requires 0 <= k < |ps| => JoinPath(ps[k].0, ps[k].1))
  }

  /** What `list_prompts` returns. */
  function Paths(p: Prompts): seq<string>
  {
    Render(Pairs(p))
  }

  /** The total number of entries over all namespaces. */
  function EntryCount(p: Prompts): nat
  {
    if p == [] then 0 else EntryCount(p[..|p| - 1]) + |p[|p| - 1].1|
  }

  /** `list_prompts`: the nested loops appending one path per entry. */
  method ListPaths(p: Prompts) returns (result: seq<string>)
    ensures result == Paths(p)
  {
    result := [];
    for i := 0 to |p|
      invariant result == Render(Pairs(p[..i]))
    {
      var ns := p[i].0;
      var names := p[i].1;
      for j := 0 to |names|
        invariant result == Render(Pairs(p[..i]) + NamePairs(ns, names[..j]))
      {
        NamePairsSnoc(ns, names, j);
        RenderSnoc(Pairs(p[..i]) + NamePairs(ns, names[..j]), (ns, names[j].0));
        assert Pairs(p[..i]) + NamePairs(ns, names[..j + 1])
            == (Pairs(p[..i]) + NamePairs(ns, names[..j])) + [(ns, names[j].0)];
        result := result + [JoinPath(ns, names[j].0)];
      }
      assert names[..|names|] == names;
      assert p[..i + 1][..i] == p[..i];
    }
    assert p[..|p|] == p;
  }

  /** Rendering one more pair appends one more path. */
  lemma RenderSnoc(ps: seq<(string, string)>, x: (string, string))
    ensures Render(ps + [x]) == Render(ps) + [JoinPath(x.0, x.1)]
  {
    var r := Render(ps + [x]);
    assert forall k :: 0 <= k < |ps| ==> r[k] == Render(ps)[k];
  }

  /** One more prompt name of a namespace gives one more pair. */
  lemma NamePairsSnoc(ns: string, n: Namespace, j: nat)
    requires j < |n|
    ensures NamePairs(ns, n[..j + 1]) == NamePairs(ns, n[..j]) + [(ns, n[j].0)]
  {
    var a := NamePairs(ns, n[..j + 1]);
    var b := NamePairs(ns, n[..j]) + [(ns, n[j].0)];
    assert |a| == |b|;
    forall k | 0 <= k < |a| ensures a[k] == b[k] {
      assert n[..j + 1][k] == n[k];
    }
  }

  /** The listing has exactly one element per entry. */
  lemma {:induction false} PairsLength(p: Prompts)
    ensures |Pairs(p)| == EntryCount(p) == |Paths(p)|
  {
    if p != [] {
      PairsLength(p[..|p| - 1]);
    }
  }

  /**
   * Listing order: the j-th prompt of the i-th namespace comes right after
   * every entry of the namespaces before it.
   */
  lemma {:induction false} PairsAt(p: Prompts, i: nat, j: nat)
    requires i < |p| && j < |p[i].1|
    ensures EntryCount(p[..i]) + j < |Pairs(p)|
    ensures Pairs(p)[EntryCount(p[..i]) + j] == (p[i].0, p[i].1[j].0)
    ensures Paths(p)[EntryCount(p[..i]) + j] == JoinPath(p[i].0, p[i].1[j].0)
  {
    var q := p[..|p| - 1];
    PairsLength(q);
    if i == |p| - 1 {
      assert p[..i] == q;
    } else {
      PairsAt(q, i, j);
      assert q[..i] == p[..i];
      assert q[i] == p[i];
    }
  }

  /** A pair is listed iff some namespace has that name and holds that prompt name. */
  lemma PairsMembers(p: Prompts, x: (string, string))
    ensures x in Pairs(p) <==>
      exists i, j :: 0 <= i < |p| && 0 <= j < |p[i].1| && x == (p[i].0, p[i].1[j].0)
  {
    if x in Pairs(p) {
      PairsSource(p, x);
    }
    if exists i, j :: 0 <= i < |p| && 0 <= j < |p[i].1| && x == (p[i].0, p[i].1[j].0) {
      var i, j :| 0 <= i < |p| && 0 <= j < |p[i].1| && x == (p[i].0, p[i].1[j].0);
      PairsAt(p, i, j);
    }
  }

  /** Every listed pair comes from some namespace and one of its prompt names. */
  lemma {:induction false} PairsSource(p: Prompts, x: (string, string))
    requires x in Pairs(p)
    ensures exists i, j :: 0 <= i < |p| && 0 <= j < |p[i].1| && x == (p[i].0, p[i].1[j].0)
  {
    var q := p[..|p| - 1];
    var last := p[|p| - 1];
    if x in Pairs(q) {
      PairsSource(q, x);
      var i, j :| 0 <= i < |q| && 0 <= j < |q[i].1| && x == (q[i].0, q[i].1[j].0);
      assert p[i] == q[i];
    } else {
      var np := NamePairs(last.0, last.1);
      assert x in np;
      var j :| 0 <= j < |np| && np[j] == x;
      assert x == (p[|p| - 1].0, p[|p| - 1].1[j].0);
    }
  }

  /** The listing names each (namespace, prompt name) pair at most once. */
  lemma {:induction false} PairsDistinct(p: Prompts)
    requires WellFormed(p)
    ensures forall a, b :: 0 <= a < b < |Pairs(p)| ==> Pairs(p)[a] != Pairs(p)[b]
  {
    if p != [] {
      var q := p[..|p| - 1];
      var last := p[|p| - 1];
      assert WellFormed(q) by {
        forall i | 0 <= i < |q| ensures DistinctKeys(q[i].1) {
          assert q[i] == p[i];
        }
      }
      PairsDistinct(q);
      var pq := Pairs(q);
      var np := NamePairs(last.0, last.1);
      assert Pairs(p) == pq + np;
      forall a, b | 0 <= a < b < |Pairs(p)| ensures Pairs(p)[a] != Pairs(p)[b] {
        if b >= |pq| {
          if a >= |pq| {
            assert np[a - |pq|].1 == last.1[a - |pq|].0;
            assert np[b - |pq|].1 == last.1[b - |pq|].0;
          } else {
            var x := pq[a];
            PairsMembers(q, x);
            var i, j :| 0 <= i < |q| && 0 <= j < |q[i].1| && x == (q[i].0, q[i].1[j].0);
            assert q[i] == p[i];
            assert x.0 != last.0;
          }
        }
      }
    }
  }

  /**
   * Listing and lookup agree: a pair is listed exactly when `LookupEntry`
   * finds an entry for it.
   */
  lemma LookupIffListed(p: Prompts, ns: string, name: string)
    requires WellFormed(p)
    ensures (ns, name) in Pairs(p) <==> LookupEntry(p, ns, name).Some?
  {
    PairsMembers(p, (ns, name));
    if (ns, name) in Pairs(p) {
      var i, j :| 0 <= i < |p| && 0 <= j < |p[i].1| && (ns, name) == (p[i].0, p[i].1[j].0);
      GetItem(p, i);
      GetItem(p[i].1, j);
    }
    if LookupEntry(p, ns, name).Some? {
      var i := FindKey(p, ns).value;
      var j := FindKey(p[i].1, name).value;
      assert (ns, name) == (p[i].0, p[i].1[j].0);
    }
  }

  /** The entry a listed pair looks up is the one stored at that position. */
  lemma LookupListed(p: Prompts, i: nat, j: nat)
    requires WellFormed(p) && i < |p| && j < |p[i].1|
    ensures LookupEntry(p, p[i].0, p[i].1[j].0) == Some(p[i].1[j].1)
  {
    GetItem(p, i);
    GetItem(p[i].1, j);
  }

  /**
   * Round trip: a listed path whose namespace and prompt name are dot-free
   * parses back into the pair it was built from.
   */
  lemma ListedPathsParse(p: Prompts, k: nat)
    requires k < |Paths(p)| && '.' !in Pairs(p)[k].0 && '.' !in Pairs(p)[k].1
    ensures ParsePath(Paths(p)[k]) == Success(Pairs(p)[k])
  {
    ParseJoinPath(Pairs(p)[k].0, Pairs(p)[k].1);
  }
}
