/**
 * `PromptLoader` of the gymnasium package: lookups answer a
 * (content, system prompt) pair with a default system prompt.
 */
module GymPromptLoader {
  import opened Wrappers
  import opened Strings
  import opened PromptRegistry

  const DefaultSystemPrompt := "You are an expert in Sui Move smart contract development."

  /**
   * The pair answered for a looked-up entry: nothing for an empty entry,
   * otherwise its content and its system prompt, the default when the key is absent.
   */
  function Found(e: Entry): (Option<string>, Option<string>)
  {
    if e == map[] then (None, None)
    else
      var content := Field(e, "content");
      var system := if "system_prompt" in e then e["system_prompt"] else Some(DefaultSystemPrompt);
      (content, system)
  }

  class PromptLoader {
    /** namespace -> prompt name -> entry, as loaded from the prompt files. */
    var prompts: Prompts

    ghost predicate Valid()
      reads this
    {
      WellFormed(prompts)
    }

    /** The loader over an already loaded registry (the files are not read here). */
    constructor(loaded: Prompts)
      requires WellFormed(loaded)
      ensures Valid() && prompts == loaded
    {
      prompts := loaded;
    }

    /** `get_prompt`: the (content, system prompt) pair of a path, (None, None) when not found. */
    function GetPrompt(path: string): (r: Result<(Option<string>, Option<string>), PyError>)
      reads this
      ensures r.Failure? <==> CountChar(path, '.') != 1
      ensures r.Failure? ==> r.error == ValueError(PathFormatMessage)
    {
      match ParsePath(path)
      case Failure(e) => Failure(e)
      case Success((ns, name)) =>
        match LookupEntry(prompts, ns, name)
        case None => Success((None, None))
        case Some(e) => Success(Found(e))
    }

    /**
     * A listed prompt's path answers from that prompt's own entry: (None, None)
     * for an empty entry, otherwise its content and its system prompt, the
     * default one when the entry has none.
     */
    lemma GetListedPrompt(i: nat, j: nat)
      requires Valid() && i < |prompts| && j < |prompts[i].1|
      requires '.' !in prompts[i].0 && '.' !in prompts[i].1[j].0
      ensures GetPrompt(JoinPath(prompts[i].0, prompts[i].1[j].0)).Success?
      ensures var e := prompts[i].1[j].1;
        e == map[] ==> GetPrompt(JoinPath(prompts[i].0, prompts[i].1[j].0)).value == (None, None)
      ensures var e := prompts[i].1[j].1;
        e != map[] ==> GetPrompt(JoinPath(prompts[i].0, prompts[i].1[j].0)).value.0 == Field(e, "content")
      ensures var e := prompts[i].1[j].1;
        e != map[] && "system_prompt" !in e ==>
          GetPrompt(JoinPath(prompts[i].0, prompts[i].1[j].0)).value.1 == Some(DefaultSystemPrompt)
      ensures var e := prompts[i].1[j].1;
        e != map[] && "system_prompt" in e ==>
          GetPrompt(JoinPath(prompts[i].0, prompts[i].1[j].0)).value.1 == e["system_prompt"]
    {
      ParseJoinPath(prompts[i].0, prompts[i].1[j].0);
      LookupListed(prompts, i, j);
    }

    /** A well-formed path that names no listed prompt answers (None, None). */
    lemma GetUnlistedPrompt(path: string)
      requires Valid() && CountChar(path, '.') == 1 && ParsePath(path).value !in Pairs(prompts)
      ensures GetPrompt(path) == Success((None, None))
    {
      var (ns, name) := ParsePath(path).value;
      LookupIffListed(prompts, ns, name);
    }

    /** `get_prompt_description`: the entry's description, None when not found. */
    function GetPromptDescription(path: string): (r: Result<Option<string>, PyError>)
      reads this
      ensures r.Failure? <==> CountChar(path, '.') != 1
      ensures r.Failure? ==> r.error == ValueError(PathFormatMessage)
      ensures r.Success? ==>
        var (ns, name) := ParsePath(path).value;
        r.value == if LookupEntry(prompts, ns, name).Some? then Field(LookupEntry(prompts, ns, name).value, "description") else None
      ensures r.Success? && r.value.Some? ==>
        var (ns, name) := ParsePath(path).value;
        LookupEntry(prompts, ns, name).Some? && "description" in LookupEntry(prompts, ns, name).value
    {
      LookupField(prompts, path, "description")
    }

    /**
     * `list_prompts`: one "namespace.prompt_name" per entry in dict order;
     * each path whose two names are dot-free parses back into its pair.
     */
    method ListPrompts() returns (result: seq<string>)
      ensures result == Paths(prompts)
      ensures |result| == EntryCount(prompts)
      ensures forall k :: 0 <= k < |result| && '.' !in Pairs(prompts)[k].0 && '.' !in Pairs(prompts)[k].1 ==>
        ParsePath(result[k]) == Success(Pairs(prompts)[k])
    {
      result := ListPaths(prompts);
      PairsLength(prompts);
      forall k | 0 <= k < |result| && '.' !in Pairs(prompts)[k].0 && '.' !in Pairs(prompts)[k].1
        ensures ParsePath(result[k]) == Success(Pairs(prompts)[k])
      {
        ListedPathsParse(prompts, k);
      }
    }
  }
}
