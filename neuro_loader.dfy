/**
 * `PromptLoader` of the neuromansui package: lookups answer the content
 * alone, with no default.
 */
module NeuroPromptLoader {
  import opened Wrappers
  import opened Strings
  import opened PromptRegistry

  class PromptLoader {
    /** namespace -> prompt name -> entry, as loaded from the prompt files. */
    var prompts: Prompts

    ghost predicate Valid()
      reads this
    {
      WellFormed(prompts)
    }

    /** The loader over an already loaded registry (the files are not read here). */
    constructor(loaded: Prompts)
      requires WellFormed(loaded)
      ensures Valid() && prompts == loaded
    {
      prompts := loaded;
    }

    /**
     * `get_prompt`: the content of a non-empty entry that has a "content"
     * key; None when the namespace, the entry or the key is missing.
     */
    function GetPrompt(path: string): (r: Result<Option<string>, PyError>)
      reads this
      ensures r.Failure? <==> CountChar(path, '.') != 1
      ensures r.Failure? ==> r.error == ValueError(PathFormatMessage)
      ensures r.Success? ==>
        var (ns, name) := ParsePath(path).value;
        r.value == if LookupEntry(prompts, ns, name).Some? then Field(LookupEntry(prompts, ns, name).value, "content") else None
      ensures r.Success? && r.value.Some? ==>
        var (ns, name) := ParsePath(path).value;
        LookupEntry(prompts, ns, name).Some? && "content" in LookupEntry(prompts, ns, name).value
    {
      LookupField(prompts, path, "content")
    }

    /** A listed prompt's path answers that prompt's own content. */
    lemma GetListedPrompt(i: nat, j: nat)
      requires Valid() && i < |prompts| && j < |prompts[i].1|
      requires '.' !in prompts[i].0 && '.' !in prompts[i].1[j].0
      ensures GetPrompt(JoinPath(prompts[i].0, prompts[i].1[j].0)) == Success(Field(prompts[i].1[j].1, "content"))
    {
      LookupFieldListed(prompts, i, j, "content");
    }

    /** `get_prompt_description`: the entry's description, None when not found. */
    function GetPromptDescription(path: string): (r: Result<Option<string>, PyError>)
      reads this
      ensures r.Failure? <==> CountChar(path, '.') != 1
      ensures r.Failure? ==> r.error == ValueError(PathFormatMessage)
      ensures r.Success? ==>
        var (ns, name) := ParsePath(path).value;
        r.value == if LookupEntry(prompts, ns, name).Some? then Field(LookupEntry(prompts, ns, name).value, "description") else None
      ensures r.Success? && r.value.Some? ==>
        var (ns, name) := ParsePath(path).value;
        LookupEntry(prompts, ns, name).Some? && "description" in LookupEntry(prompts, ns, name).value
    {
      LookupField(prompts, path, "description")
    }

    /**
     * `list_prompts`: one "namespace.prompt_name" per entry in dict order;
     * each path whose two names are dot-free parses back into its pair.
     */
    method ListPrompts() returns (result: seq<string>)
      ensures result == Paths(prompts)
      ensures |result| == EntryCount(prompts)
      ensures forall k :: 0 <= k < |result| && '.' !in Pairs(prompts)[k].0 && '.' !in Pairs(prompts)[k].1 ==>
        ParsePath(result[k]) == Success(Pairs(prompts)[k])
    {
      result := ListPaths(prompts);
      PairsLength(prompts);
      forall k | 0 <= k < |result| && '.' !in Pairs(prompts)[k].0 && '.' !in Pairs(prompts)[k].1
        ensures ParsePath(result[k]) == Success(Pairs(prompts)[k])
      {
        ListedPathsParse(prompts, k);
      }
    }
  }
}
