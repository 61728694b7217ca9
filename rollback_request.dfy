/**
 * The constructor's handling of a manual rollback request (the `rollback` and `theme`
 * query arguments): the requested tag replaces the theme's `response` entry in the
 * update_themes transient, without any comparison with the installed version, and
 * the theme update row hook is no longer registered once a rollback tag is held.
 */
module RollbackRequest {
  import opened Php
  import opened ThemeData

  /** The request asks to roll theme t back: a non-empty `rollback` tag and `theme` equal to t's repo. */
  predicate OverrideFires(t: ThemeConfig, query: map<string, string>) {
    "rollback" in query && !Empty(query["rollback"]) && "theme" in query && query["theme"] == t.repo
  }

  /** The `response` entry that rolls theme t back to tag. */
  function RollbackUpdate(t: ThemeConfig, tag: string, apis: ProviderApis): Update {
    Update(tag, t.uri, PackageFor(apis, t, tag))
  }

  /** The stored transient after every configured theme has been checked against the request, in order. */
  function RollbackOverride(config: seq<ThemeConfig>, query: map<string, string>, apis: ProviderApis, stored: UpdateThemes): (r: UpdateThemes)
    ensures r.upToDate == stored.upToDate
    ensures r.response.Keys == stored.response.Keys + set j | 0 <= j < |config| && OverrideFires(config[j], query) :: config[j].repo
    decreases |config|
  {
    if config == [] then stored
    else
      var d, t := RollbackOverride(config[..|config| - 1], query, apis, stored), config[|config| - 1];
      if OverrideFires(t, query) then d.(response := d.response[t.repo := RollbackUpdate(t, query["rollback"], apis)])
      else d
  }

  /** The position of the first theme the request targets, or |config| when there is none. */
  function FirstFiring(config: seq<ThemeConfig>, query: map<string, string>): (k: nat)
    ensures k <= |config|
    ensures forall j :: 0 <= j < k ==> !OverrideFires(config[j], query)
    ensures k < |config| ==> OverrideFires(config[k], query)
  {
    if config == [] then 0
    else if OverrideFires(config[0], query) then 0
    else 1 + FirstFiring(config[1..], query)
  }

  /** The rollback tag the Theme object holds after its constructor. */
  function RollbackTag(config: seq<ThemeConfig>, query: map<string, string>): (tag: Option<string>)
    ensures tag.Some? <==> exists j :: 0 <= j < |config| && OverrideFires(config[j], query)
    ensures tag.Some? ==> "rollback" in query && tag.value == query["rollback"] && !Empty(tag.value)
  {
    if FirstFiring(config, query) < |config| then Some(query["rollback"]) else None
  }

  /**
   * The repos whose theme row gets the custom update row: when rows are shown at all,
   * every theme before the first one the request targets.
   */
  function UpdateRowRepos(config: seq<ThemeConfig>, query: map<string, string>, showRows: bool): (rows: seq<string>)
    ensures |rows| <= |config|
    ensures !showRows ==> rows == []
    ensures showRows ==> |rows| == FirstFiring(config, query)
    ensures forall j :: 0 <= j < |rows| ==> rows[j] == config[j].repo && !OverrideFires(config[j], query)
  {
    if showRows then Repos(config[..FirstFiring(config, query)]) else []
  }

  /**
   * A request leaves the `up_to_date` table alone, and leaves the `response` table alone
   * at every repo other than the requested one.
   */
  lemma {:induction false} OverrideFrame(config: seq<ThemeConfig>, query: map<string, string>, apis: ProviderApis, stored: UpdateThemes, r: string)
    requires !("rollback" in query && !Empty(query["rollback"]) && "theme" in query && query["theme"] == r)
    ensures var res := RollbackOverride(config, query, apis, stored);
      res.upToDate == stored.upToDate && SameAt(res.response, stored.response, r)
  {
    if config != [] {
      OverrideFrame(config[..|config| - 1], query, apis, stored, r);
    }
  }

  /** A request that targets no configured theme leaves the transient exactly as it was. */
  lemma {:induction false} OverrideInert(config: seq<ThemeConfig>, query: map<string, string>, apis: ProviderApis, stored: UpdateThemes)
    requires forall j :: 0 <= j < |config| ==> !OverrideFires(config[j], query)
    ensures RollbackOverride(config, query, apis, stored) == stored
  {
    if config != [] {
      OverrideInert(config[..|config| - 1], query, apis, stored);
    }
  }

  /**
   * The last theme the request targets sets the requested repo's `response` entry:
   * new_version is the requested tag and package is that tag's download link.
   */
  lemma {:induction false} OverrideSetsRequestedTag(config: seq<ThemeConfig>, query: map<string, string>, apis: ProviderApis, stored: UpdateThemes, i: nat)
    requires i < |config| && OverrideFires(config[i], query)
    requires forall j :: i < j < |config| ==> !OverrideFires(config[j], query)
    ensures var res, t, tag := RollbackOverride(config, query, apis, stored), config[i], query["rollback"];
      t.repo in res.response
      && res.response[t.repo] == RollbackUpdate(t, tag, apis)
      && res.response[t.repo].newVersion == tag
      && res.response[t.repo].package == PackageFor(apis, t, tag)
  {
    var n := |config|;
    if i < n - 1 {
      var prefix := config[..n - 1];
      assert prefix[i] == config[i];
      OverrideSetsRequestedTag(prefix, query, apis, stored, i);
    }
  }

  /** A theme the request targets never gets the custom update row. */
  lemma RolledBackThemeHasNoUpdateRow(config: seq<ThemeConfig>, query: map<string, string>, showRows: bool, i: nat)
    requires i < |config| && OverrideFires(config[i], query)
    ensures config[i].repo !in UpdateRowRepos(config, query, showRows)
  {
  }

  /** Without a targeted theme, every theme gets its update row when rows are shown. */
  lemma UpdateRowsWithoutRollback(config: seq<ThemeConfig>, query: map<string, string>, showRows: bool)
    requires forall j :: 0 <= j < |config| ==> !OverrideFires(config[j], query)
    ensures UpdateRowRepos(config, query, showRows) == if showRows then Repos(config) else []
    ensures RollbackTag(config, query) == None
  {
  }
}
