/** Patch-plugin detection (src/PatchDetector.php): the first installed
    package whose name is in the handler registry selects the handler. */
module PatchDetector {
  import opened Php

  /** The handler classes of the registry. What a handler reports is given
      from outside as a `Query`: the handlers drive other Composer plugins. */
  datatype Handler = Vaimo | Cweagans

  /** The names of the packages a handler reports as patched. */
  type Query = Handler -> seq<string>

  const PatchPluginHandlers: map<string, Handler> := map[
    "vaimo/composer-patches" := Vaimo,
    "cweagans/composer-patches" := Cweagans]

  /** `getPatchPlugin` over the installed package names, in repository order. */
  function GetPatchPlugin(names: seq<string>): (r: Option<Handler>)
    ensures r.None? <==> forall i :: 0 <= i < |names| ==> names[i] !in PatchPluginHandlers
    ensures r.Some? ==>
      exists i :: 0 <= i < |names| && names[i] in PatchPluginHandlers && r.value == PatchPluginHandlers[names[i]] &&
        forall j :: 0 <= j < i ==> names[j] !in PatchPluginHandlers
  {
    if names == [] then None
    else if names[0] in PatchPluginHandlers then Some(PatchPluginHandlers[names[0]])
    else
      var r := GetPatchPlugin(names[1..]);
      assert forall i :: 1 <= i < |names| ==> names[i] == names[1..][i - 1];
      r
  }

  function PatchedPackages(names: seq<string>, query: Query): (r: seq<string>)
    ensures (forall i :: 0 <= i < |names| ==> names[i] !in PatchPluginHandlers) ==> r == []
    ensures forall i :: 0 <= i < |names| ==>
      (names[i] in PatchPluginHandlers && (forall j :: 0 <= j < i ==> names[j] !in PatchPluginHandlers) ==>
        r == query(PatchPluginHandlers[names[i]]))
  {
    match GetPatchPlugin(names)
    case None => []
    case Some(handler) => query(handler)
  }

  /** A name that is not a registry key never influences the search,
      wherever it stands. */
  lemma {:induction false} OtherNamesIgnored(a: seq<string>, x: string, b: seq<string>)
    requires x !in PatchPluginHandlers
    ensures GetPatchPlugin(a + [x] + b) == GetPatchPlugin(a + b)
  {
    if a == [] {
      assert a + [x] + b == [x] + b && a + b == b;
      assert ([x] + b)[1..] == b;
    } else {
      assert (a + [x] + b)[1..] == a[1..] + [x] + b;
      assert (a + b)[1..] == a[1..] + b;
      OtherNamesIgnored(a[1..], x, b);
    }
  }

  /** The registry knows exactly the two patch plugins. */
  lemma RegistryKeys()
    ensures PatchPluginHandlers.Keys == {"vaimo/composer-patches", "cweagans/composer-patches"}
    ensures PatchPluginHandlers["vaimo/composer-patches"] == Vaimo
    ensures PatchPluginHandlers["cweagans/composer-patches"] == Cweagans
  {
  }

  /** With both plugins installed, the one listed first in the repository is
      chosen, whatever the registry's own order. */
  lemma RepositoryOrderWins(a: seq<string>, b: seq<string>, c: seq<string>)
    requires forall i :: 0 <= i < |a| ==> a[i] !in PatchPluginHandlers
    ensures GetPatchPlugin(a + ["cweagans/composer-patches"] + b + ["vaimo/composer-patches"] + c) == Some(Cweagans)
  {
    var names := a + ["cweagans/composer-patches"] + b + ["vaimo/composer-patches"] + c;
    assert names[|a|] == "cweagans/composer-patches";
    forall i | 0 <= i < |a| ensures names[i] !in PatchPluginHandlers {
      assert names[i] == a[i];
    }
  }

  /** The detector object: its readonly collaborators are the installed
      package names and what the handlers would report. */
  class PatchDetector {
    const installed: seq<string>
    const query: Query

    constructor (installed: seq<string>, query: Query)
      ensures this.installed == installed && this.query == query
    {
      this.installed := installed;
      this.query := query;
    }

    /** `hasPatchPlugin`: some installed package name is a registry key. */
    function HasPatchPlugin(): (r: bool)
      ensures r <==> exists i :: 0 <= i < |installed| && installed[i] in PatchPluginHandlers
    {
      GetPatchPlugin(installed).Some?
    }

    /** `getPatchedPackages`: the selected handler's list, or `[]`. */
    function GetPatchedPackages(): (r: seq<string>)
      ensures !HasPatchPlugin() ==> r == []
      ensures HasPatchPlugin() ==> r == query(GetPatchPlugin(installed).value)
    {
      PatchedPackages(installed, query)
    }
  }
}
