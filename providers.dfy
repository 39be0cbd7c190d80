// The provider registry, pkg/providers/provider.go: a table from provider
// name to provider. Providers are reduced to their names; what a provider
// does when asked for a completion is a parameter of the executor.

module Providers {
  import opened Wrappers
  import FlowModel

  /** A registered LLM provider, known by the name its Name() returns. */
  datatype Provider = Provider(name: string)

  /** The names of the three built-in providers (openai.go:28,
      anthropic.go:28, github_playground_openai.go:31). */
  const OpenAIName: string := "openai"
  const AnthropicName: string := "anthropic"
  const GithubPlaygroundOpenAIName: string := "github_playground_openai"

  /** The registry's table after registering the built-in providers on top
      of `table`, in the order WithDefaultProviders registers them. */
  function WithDefaults(table: map<string, Provider>): (t: map<string, Provider>)
    ensures t.Keys == table.Keys + {OpenAIName, AnthropicName, GithubPlaygroundOpenAIName}
    ensures forall name | name in {OpenAIName, AnthropicName, GithubPlaygroundOpenAIName} :: t[name] == Provider(name)
    ensures forall name | name in table && name !in {OpenAIName, AnthropicName, GithubPlaygroundOpenAIName} ::
      t[name] == table[name]
  {
    table[OpenAIName := Provider(OpenAIName)]
         [AnthropicName := Provider(AnthropicName)]
         [GithubPlaygroundOpenAIName := Provider(GithubPlaygroundOpenAIName)]
  }

  class Registry {
    var providers: map<string, Provider>

    /** NewRegistry: an empty table. */
    constructor ()
      ensures providers == map[]
    {
      providers := map[];
    }

    /** Register: the provider is stored under its name, replacing any
        provider already registered under that name; every other entry
        stays. */
    method Register(provider: Provider)
      modifies this
      ensures providers == old(providers)[provider.name := provider]
      ensures provider.name in providers && providers[provider.name] == provider
      ensures forall name | name != provider.name ::
        (name in providers <==> name in old(providers)) &&
        (name in providers ==> providers[name] == old(providers)[name])
    {
      providers := providers[provider.name := provider];
    }

    /** Get: the provider registered under a name, and whether there is
        one; Go's nil interface is None. */
    method Get(name: string) returns (provider: Option<Provider>, ok: bool)
      ensures ok <==> name in providers
      ensures ok ==> provider == Some(providers[name])
      ensures !ok ==> provider == None
    {
      if name in providers {
        return Some(providers[name]), true;
      }
      return None, false;
    }

    /** List: every registered name once, in the table's iteration order,
        which is left open. */
    method List() returns (names: seq<string>)
      ensures FlowModel.Distinct(names)
      ensures forall name :: name in names <==> name in providers
      ensures |names| == |providers|
    {
      names := [];
      var rest := providers.Keys;
      while rest != {}
        invariant rest <= providers.Keys && FlowModel.Distinct(names)
        invariant forall name :: name in names <==> name in providers && name !in rest
        invariant |names| + |rest| == |providers.Keys|
        decreases |rest|
      {
        var name :| name in rest;
        names := names + [name];
        rest := rest - {name};
      }
    }

    /** WithDefaultProviders: registers "openai", "anthropic" and
        "github_playground_openai", in that order, and returns the same
        registry. */
    method WithDefaultProviders() returns (r: Registry)
      modifies this
      ensures r == this
      ensures providers == WithDefaults(old(providers))
    {
      Register(Provider(OpenAIName));
      Register(Provider(AnthropicName));
      Register(Provider(GithubPlaygroundOpenAIName));
      return this;
    }
  }

  /** Registering the defaults twice gives the same table as once. */
  lemma DefaultsIdempotent(table: map<string, Provider>)
    ensures WithDefaults(WithDefaults(table)) == WithDefaults(table)
  {
  }
}
