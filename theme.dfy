/**
 * The Theme updater object: its constructor walks the configured themes once, applying
 * a manual rollback request and deciding which hooks to register; its filter callbacks
 * update the update_themes transient, answer themes_api, build the theme update row and
 * decorate the theme browser.
 */
module GitHubUpdater {
  import opened Php
  import opened ThemeData
  import opened UpdateTransient
  import opened RollbackRequest
  import opened ThemeRows
  import opened ThemeInfo
  import opened ThemeBrowser

  /** The host's site-transient storage, holding the update_themes transient. */
  class SiteTransients {
    var updateThemes: UpdateThemes

    constructor (initial: UpdateThemes)
      ensures updateThemes == initial
    {
      updateThemes := initial;
    }
  }

  /** The `action` values during which the update_themes filter is not installed. */
  const CoreUpgradeActions: set<string> := {"do-core-reinstall", "do-core-upgrade"}

  class Theme {
    /** The configured git-sourced themes, in order. */
    var config: seq<ThemeConfig>
    /** The rollback tag of the request, once a configured theme matched it (`false` in PHP is None). */
    var tag: Option<string>
    /** The repos whose theme row got the custom update row hook, in registration order. */
    var updateRowRepos: seq<string>
    /** Whether pre_set_site_transient_update_themes was added as a filter. */
    var filtersUpdateThemes: bool
    /** Whether customize_theme_update_html was added as a filter. */
    var customizesThemeBrowser: bool

    /**
     * `config` is what get_theme_meta found, already filled in by the remote fetch;
     * `query` is the request's arguments; `multisite` and `legacyWordPress` are the
     * host's is_multisite() and "version below 3.8".
     */
    constructor (config: seq<ThemeConfig>, query: map<string, string>, multisite: bool, legacyWordPress: bool,
                 apis: ProviderApis, store: SiteTransients)
      modifies store
      ensures this.config == config
      ensures tag == RollbackTag(config, query)
      ensures store.updateThemes == RollbackOverride(config, query, apis, old(store.updateThemes))
      ensures updateRowRepos == UpdateRowRepos(config, query, multisite || legacyWordPress)
      ensures filtersUpdateThemes == (config != [] && !("action" in query && query["action"] in CoreUpgradeActions))
      ensures customizesThemeBrowser == (config != [] && !multisite)
    {
      var held: Option<string> := None;
      var rows: seq<string> := [];
      var showRows := multisite || legacyWordPress;
      ghost var k := FirstFiring(config, query);
      for i := 0 to |config|
        invariant held == if k < i then Some(query["rollback"]) else None
        invariant rows == if showRows then Repos(config[..if i < k then i else k]) else []
        invariant store.updateThemes == RollbackOverride(config[..i], query, apis, old(store.updateThemes))
      {
        var theme := config[i];
        assert config[..i + 1][..i] == config[..i];
        if OverrideFires(theme, query) {
          held := Some(query["rollback"]);
          var transient := store.updateThemes;
          var rollback := RollbackUpdate(theme, query["rollback"], apis);
          transient := transient.(response := transient.response[theme.repo := rollback]);
          store.updateThemes := transient;
        }
        if showRows && held.None? {
          rows := rows + [theme.repo];
          assert Repos(config[..i + 1]) == Repos(config[..i]) + [theme.repo];
        }
      }
      assert config[..|config|] == config;
      this.config := config;
      tag := held;
      updateRowRepos := rows;
      filtersUpdateThemes := config != [] && !("action" in query && query["action"] in CoreUpgradeActions);
      customizesThemeBrowser := config != [] && !multisite;
    }

    /**
     * The update_themes filter: every configured theme with a uri is filed under `response`
     * when `canUpdate` (Base's can_update) holds of it and under `up_to_date` otherwise.
     */
    method PreSetSiteTransientUpdateThemes(data: UpdateThemes, canUpdate: ThemeConfig -> bool) returns (r: UpdateThemes)
      ensures r == Partition(config, canUpdate, data)
    {
      r := data;
      for i := 0 to |config|
        invariant r == Partition(config[..i], canUpdate, data)
      {
        var theme := config[i];
        assert config[..i + 1][..i] == config[..i];
        if Empty(theme.uri) {
          continue;
        }
        var update := UpdateOf(theme);
        if canUpdate(theme) {
          r := r.(response := r.response[theme.repo := update]);
        } else {
          r := r.(upToDate := r.upToDate[theme.repo := UpToDate(theme.rollback, update)]);
        }
      }
      assert config[..|config|] == config;
    }

    /**
     * The themes_api filter: declines unless the action is 'theme_information' and sections
     * are wanted, and otherwise answers with the response patched from the matching theme.
     */
    method ThemesApi<T>(prior: T, action: string, response: ApiResponse) returns (r: FilterResult<T>)
      ensures action != "theme_information" ==> r == Declined(prior)
      ensures !SectionsWanted(response.fields) ==> r == Declined(prior)
      ensures action == "theme_information" && SectionsWanted(response.fields) ==>
        r == Answered(DescribeMatches(config, response))
    {
      if action != "theme_information" {
        return Declined(prior);
      }
      if !SectionsWanted(response.fields) {
        return Declined(prior);
      }
      var res := response;
      for i := 0 to |config|
        invariant res == DescribeMatches(config[..i], response)
      {
        var theme := config[i];
        assert config[..i + 1][..i] == config[..i];
        if res.slug == theme.repo {
          res := Describe(res, theme);
        }
      }
      assert config[..|config|] == config;
      r := Answered(res);
    }

    /**
     * The theme update row for themeKey, read from the stored transient: an up-to-date
     * notice with its rollback offer when `up_to_date` has the theme, an update notice
     * when `response` has it.
     */
    method WpThemeUpdateRow(current: UpdateThemes, themeKey: string) returns (row: UpdateRow)
      ensures row.upToDate.Some? <==> themeKey in current.upToDate
      ensures themeKey in current.upToDate ==>
        var rollback := current.upToDate[themeKey].rollback;
        row.upToDate.value == if |rollback| > 0 then RollbackTo(RollbackWindow(ArrayKeys(rollback))) else NoPreviousTags
      ensures row.update.Some? <==> themeKey in current.response
      ensures themeKey in current.response ==>
        row.update.value == UpdateOffer(current.response[themeKey].newVersion, !Empty(current.response[themeKey].package))
    {
      var upToDate: Option<RollbackOffer> := None;
      if themeKey in current.upToDate {
        var rollback := current.upToDate[themeKey].rollback;
        var rollbackKeys := ArrayKeys(rollback);
        if |rollback| > 0 {
          ghost var window := RollbackWindow(rollbackKeys);
          rollbackKeys := rollbackKeys[1..];
          var shown: seq<string> := [];
          for i := 0 to 3
            invariant |shown| == i
            invariant window == shown + LeadingTags(rollbackKeys, 3 - i)
          {
            var tag := "";
            if rollbackKeys != [] {
              tag := rollbackKeys[0];
              rollbackKeys := rollbackKeys[1..];
            }
            if Empty(tag) {
              break;
            }
            shown := shown + [tag];
          }
          upToDate := Some(RollbackTo(shown));
        } else {
          upToDate := Some(NoPreviousTags);
        }
      }
      var update: Option<UpdateOffer> := None;
      if themeKey in current.response {
        var r := current.response[themeKey];
        update := Some(UpdateOffer(r.newVersion, !Empty(r.package)));
      }
      row := UpdateRow(upToDate, update);
    }

    /**
     * The theme browser filter: every configured theme present among the prepared themes
     * gets `content` (the updater's HTML for it) in `update` or appended to `description`.
     */
    method CustomizeThemeUpdateHtml(prepared: map<string, PreparedTheme>, content: ThemeConfig -> string)
      returns (r: map<string, PreparedTheme>)
      ensures r == Customized(config, prepared, content)
    {
      r := prepared;
      for i := 0 to |config|
        invariant r == Customized(config[..i], prepared, content)
      {
        var theme := config[i];
        assert config[..i + 1][..i] == config[..i];
        if theme.repo !in r {
          continue;
        }
        r := r[theme.repo := Decorate(r[theme.repo], content(theme))];
      }
      assert config[..|config|] == config;
    }
  }
}
