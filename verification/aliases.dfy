/**
 * Alias lists, shared by command flags (`CommandFlags.Flag`) and sub-commands
 * (`SubCommand`): a name is accepted when it equals one of the aliases up to
 * case, and the first alias is the main one.
 */
module Aliases {
  import opened JavaLang

  /**
   * The aliases given to a constructor. The first one is read unguarded by
   * `getMainAlias`, so an object is only usable with at least one.
   */
  type AliasList = s: seq<string> | |s| > 0 witness [""]

  /** `accepts(name)`: the loop over the aliases, stopping at the first that matches up to case. */
  function AcceptsAlias(aliases: seq<string>, name: string): (r: bool)
    ensures r <==> exists i :: 0 <= i < |aliases| && EqualsIgnoreCase(aliases[i], name)
  {
    if |aliases| == 0 then false
    else if EqualsIgnoreCase(aliases[0], name) then
      assert EqualsIgnoreCase(aliases[0], name);
      true
    else
      var r := AcceptsAlias(aliases[1..], name);
      assert forall i :: 1 <= i < |aliases| ==> aliases[i] == aliases[1..][i - 1];
      r
  }

  /** `getMainAlias`: the first alias. */
  function MainAlias(aliases: AliasList): string {
    aliases[0]
  }

  /** The main alias is accepted, in any mix of upper and lower case. */
  lemma MainAliasAccepted(aliases: AliasList, name: string)
    requires ToLower(name) == ToLower(MainAlias(aliases))
    ensures AcceptsAlias(aliases, name)
  {
    assert EqualsIgnoreCase(aliases[0], name);
  }

  /** Accepting depends on the name only up to case. */
  lemma AcceptsIgnoresCase(aliases: seq<string>, a: string, b: string)
    requires ToLower(a) == ToLower(b)
    ensures AcceptsAlias(aliases, a) <==> AcceptsAlias(aliases, b)
  {
  }
}
