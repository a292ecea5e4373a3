/**
 * `SubCommand`: the base of the plugin's sub-commands. It keeps the plugin
 * instance it was created with and its aliases; a name selects it when it
 * equals one of the aliases up to case. Command handling itself is left to
 * the concrete sub-commands.
 */
module SubCommands {
  import opened JavaLang
  import opened Aliases

  /** A sub-command over the plugin instance type `P`. */
  datatype SubCommand<P> = SubCommand(ironGolem: P, aliases: AliasList)

  /** `accepts(name)`. */
  function Accepts<P>(c: SubCommand<P>, name: string): (r: bool)
    ensures r <==> exists i :: 0 <= i < |c.aliases| && ToLower(c.aliases[i]) == ToLower(name)
  {
    AcceptsAlias(c.aliases, name)
  }

  /** `getMainAlias`: the first alias, which the sub-command always accepts. */
  function GetMainAlias<P>(c: SubCommand<P>): (r: string)
    ensures Accepts(c, r)
    ensures r in c.aliases
  {
    MainAliasAccepted(c.aliases, c.aliases[0]);
    MainAlias(c.aliases)
  }

  /** The default `getSuggestions`: nothing, whatever the sender typed. */
  function GetSuggestions<P>(c: SubCommand<P>, args: seq<string>): (r: seq<string>)
    ensures |r| == 0
  {
    []
  }

  /** `getIronGolem`: the instance given to the constructor. */
  function GetIronGolem<P>(c: SubCommand<P>): (r: P)
    ensures SubCommand(r, c.aliases) == c
  {
    c.ironGolem
  }

  /** A sub-command hands back the instance it was built with, whatever its aliases. */
  lemma GetIronGolemReturnsOwner<P>(ironGolem: P, aliases: AliasList)
    ensures GetIronGolem(SubCommand(ironGolem, aliases)) == ironGolem
  {
  }

  /** Two names equal up to case select the same sub-commands. */
  lemma AcceptsUpToCase<P>(c: SubCommand<P>, a: string, b: string)
    requires ToLower(a) == ToLower(b)
    ensures Accepts(c, a) <==> Accepts(c, b)
  {
  }
}
