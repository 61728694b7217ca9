# Theme updater core of GitHub Updater, in Dafny

This project models the decision logic of GitHub Updater's `Theme` class. The class keeps
WordPress themes installed from GitHub or Bitbucket repositories up to date. The model covers
five pieces:

- **Filing themes into the update_themes transient.** `pre_set_site_transient_update_themes`
  puts each configured theme with a uri either in the `response` table (an update is available)
  or in the `up_to_date` table (with the theme's rollback tags).
- **The manual rollback request.** When the request carries a `rollback` tag and a `theme` repo,
  the constructor writes that tag's package into `response` for that repo. No version is
  compared. From then on the object holds the tag, so no more custom theme update rows are
  registered.
- **The theme update row.** `wp_theme_update_row` shows the up-to-date notice, the rollback tags
  it offers, and the update notice. The model returns these as data.
- **The themes_api answer.** The response object is patched from the configured theme whose repo
  equals the requested slug.
- **The theme browser.** `customize_theme_update_html` decorates the themes WordPress prepares
  for its theme browser.

Layout, one module per file:

- `php.dfy` (`Php`): PHP's `empty()` on strings (`""` and `"0"`), ordered arrays with distinct
  keys, `array_keys`, `implode`, and `explode` as the inverse of `implode`.
- `theme_data.dfy` (`ThemeData`): configured themes, the transient's two tables, the themes_api
  response, prepared theme entries, and the provider switch (`PackageFor`). The switch picks
  GitHub_API's or Bitbucket_API's `construct_download_link`.
- `update_transient.dfy` (`UpdateTransient`): the specification of the transient filter and its
  lemmas.
- `rollback_request.dfy` (`RollbackRequest`): the specification of the rollback request, the
  held tag and the update-row hook decisions.
- `theme_rows.dfy` (`ThemeRows`): the rollback window and its characterisation.
- `theme_info.dfy` (`ThemeInfo`): the themes_api patching.
- `theme_browser.dfy` (`ThemeBrowser`): the theme browser decoration.
- `theme.dfy` (`GitHubUpdater`): the `Theme` class. Its constructor and four callbacks are
  imperative loops proved against the specification functions above. `SiteTransients` stands
  for the host's site-transient storage.

`Base.can_update` and the adapters' `construct_download_link` live in classes that are not part
of this model. They are the function-valued parameters `canUpdate` and `ProviderApis`, and the
model assumes nothing about them. The private helper `_append_theme_actions_content` of `Theme`
itself (src/GitHub_Updater/Theme.php:296-339) only builds presentation markup, so it is the
parameter `content`. That helper reads the stored transient's `up_to_date` entry to choose its
markup. It can be a plain function of the theme because the transient does not change during
the loop that calls it. The request's arguments (`$_GET`) are the map `query`. `is_multisite()` and the
WordPress version test are the boolean parameters `multisite` and `legacyWordPress`.

The rollback window drops the first (newest) key of the rollback array and then takes up
to three keys, stopping at the first empty key. It does not exclude keys by comparing them with the installed version, and it does
not sort or parse tags.

## Model

| member | source | states |
|---|---|---|
| `GitHubUpdater.Theme.constructor` | src/GitHub_Updater/Theme.php:36-116 | Stores the config. Holds the rollback tag exactly when some theme is targeted. The stored transient has the override applied. Update-row hooks go to the repos before the first targeted theme, and only in multisite or old WordPress. The update_themes filter is added unless the config is empty or the action is a core upgrade or reinstall. The theme browser filter is added only when not multisite. |
| `GitHubUpdater.Theme.PreSetSiteTransientUpdateThemes` | src/GitHub_Updater/Theme.php:349-371 | The returned transient is the in-order filing of every configured theme (`Partition`). |
| `GitHubUpdater.Theme.ThemesApi` | src/GitHub_Updater/Theme.php:121-154 | Returns the first argument unchanged when the action is not `theme_information`, or when `fields` is set without a truthy `sections`. Otherwise returns the response patched from every matching theme in order. |
| `GitHubUpdater.Theme.WpThemeUpdateRow` | src/GitHub_Updater/Theme.php:191-242 | The up-to-date notice is shown iff `up_to_date` has the key. It offers `RollbackWindow` of the rollback keys, or "no previous tags" for an empty rollback array. The update notice is shown iff `response` has the key; it is automatic iff the package is not empty. |
| `GitHubUpdater.Theme.CustomizeThemeUpdateHtml` | src/GitHub_Updater/Theme.php:273-287 | The returned prepared themes are the in-order decoration by every configured theme present among them (`Customized`). |
| `UpdateTransient.UpdateOf` | src/GitHub_Updater/Theme.php:356-360 | The triple filed for a theme: its remote version, its uri and its download link. |
| `UpdateTransient.Partition` | src/GitHub_Updater/Theme.php:351-368 | The foreach filing every configured theme in order. Neither table loses a key. |
| `UpdateTransient.PartitionKeys` | src/GitHub_Updater/Theme.php:351-368 | Every key the filing adds is the repo of a configured theme whose uri is not empty. |
| `UpdateTransient.Record` | src/GitHub_Updater/Theme.php:352-367 | Files one theme. With an empty uri nothing changes. Otherwise only the theme's repo can change, and only in one of the two tables. |
| `UpdateTransient.PartitionLastWriter` | src/GitHub_Updater/Theme.php:356-367 | Take the last theme with a non-empty uri for its repo. If it can update, `response[repo]` is its (remote version, uri, download link). Otherwise `up_to_date[repo]` is its rollback with that same triple. |
| `UpdateTransient.PartitionResponseFrame` | src/GitHub_Updater/Theme.php:362-367 | `response` is unchanged at a repo when no theme for it with a uri can update. |
| `UpdateTransient.PartitionUpToDateFrame` | src/GitHub_Updater/Theme.php:362-367 | `up_to_date` is unchanged at a repo when every theme for it with a uri can update. |
| `UpdateTransient.PartitionUntouched` | src/GitHub_Updater/Theme.php:351-354 | A repo whose themes all have an empty uri keeps both its entries, present or absent. |
| `UpdateTransient.PartitionFilesTheme` | src/GitHub_Updater/Theme.php:351-370 | Take a theme that is alone for its repo. With an empty uri nothing changes at its repo. Otherwise exactly one table gets its entry and the other keeps its old one. |
| `RollbackRequest.OverrideFires` | src/GitHub_Updater/Theme.php:75 | The request targets a theme: `rollback` is set and not empty, and `theme` equals the theme's repo. |
| `RollbackRequest.RollbackUpdate` | src/GitHub_Updater/Theme.php:78-82 | The entry that rolls a theme back to a tag: the tag as new version, the theme's uri, and the selected adapter's link for the tag. |
| `RollbackRequest.RollbackOverride` | src/GitHub_Updater/Theme.php:75-85 | Applies the request to the stored transient theme by theme. `up_to_date` is never changed. `response` gains exactly the repos of the targeted themes as keys. |
| `RollbackRequest.UpdateRowRepos` | src/GitHub_Updater/Theme.php:91-96 | The repos given the update-row hook. None unless rows are shown. Otherwise they are the repos of exactly the themes before the first targeted one, in order. |
| `ThemeData.PackageFor` | src/GitHub_Updater/Theme.php:50-57 | The provider switch: the package for a tag comes from the adapter the theme's type selects (line 81). |
| `ThemeData.PackageUsesSelectedAdapter` | src/GitHub_Updater/Theme.php:50-57 | The package depends only on the selected adapter. The other adapter is never consulted. |
| `RollbackRequest.FirstFiring` | src/GitHub_Updater/Theme.php:75-76 | The first theme the request targets: no theme before it is targeted, and the one at the position is. |
| `RollbackRequest.RollbackTag` | src/GitHub_Updater/Theme.php:75-76 | A tag is held iff some configured theme is targeted. The tag is the non-empty `rollback` argument. |
| `RollbackRequest.OverrideSetsRequestedTag` | src/GitHub_Updater/Theme.php:75-84 | For the last targeted theme, `response[repo]` is (requested tag, uri, the adapter's download link for that tag). |
| `RollbackRequest.OverrideFrame` | src/GitHub_Updater/Theme.php:75-84 | `up_to_date` is never changed. `response` is unchanged at every repo other than the requested one, and everywhere when the tag is empty. |
| `RollbackRequest.OverrideInert` | src/GitHub_Updater/Theme.php:75-85 | When no configured theme is targeted, the stored transient is unchanged. |
| `RollbackRequest.RolledBackThemeHasNoUpdateRow` | src/GitHub_Updater/Theme.php:91-96 | A targeted theme's repo never gets the custom update-row hook. |
| `RollbackRequest.UpdateRowsWithoutRollback` | src/GitHub_Updater/Theme.php:91-96 | With no targeted theme, every configured repo gets the hook, in order, when rows are shown. No tag is held. |
| `ThemeRows.LeadingTags` | src/GitHub_Updater/Theme.php:200-204 | The counted, breaking loop's selection. It is never longer than the cap or than the keys left. |
| `ThemeRows.RollbackWindow` | src/GitHub_Updater/Theme.php:196-204 | The first key is dropped, then the leading selection with cap 3 is taken. At most 3 tags, and none when there are fewer than two keys. |
| `ThemeRows.LeadingTagsIsMaximalRun` | src/GitHub_Updater/Theme.php:200-204 | The loop's selection is a run of leading non-empty keys. It stops only at the cap, at the end, or before an empty key. |
| `ThemeRows.MaximalRunIsLeadingTags` | src/GitHub_Updater/Theme.php:200-204 | Any such maximal run is the loop's selection, so the selection is unique. |
| `ThemeRows.RollbackWindowCharacterized` | src/GitHub_Updater/Theme.php:196-204 | The offered tags are exactly the longest run, up to 3, of consecutive non-empty keys after the first key, in original order. This holds in both directions. |
| `ThemeRows.RollbackWindowBounds` | src/GitHub_Updater/Theme.php:196-204 | At most 3 tags, none empty, consecutive after the first key. None when there are no keys. |
| `ThemeRows.RollbackWindowSkipsNewest` | src/GitHub_Updater/Theme.php:196-197 | The first (newest) key of a rollback array is never offered. |
| `ThemeInfo.SectionsWanted` | src/GitHub_Updater/Theme.php:129 | The negation of the early-return guard: `fields` is not set, or its `sections` entry is set and truthy. |
| `ThemeInfo.Describe` | src/GitHub_Updater/Theme.php:135-148 | The fourteen field copies from one theme. `fields` is kept. |
| `ThemeInfo.DescribeOverwrites` | src/GitHub_Updater/Theme.php:135-148 | Every field but `fields` is overwritten, so the result does not depend on what the response held before. |
| `ThemeInfo.DescribeMatches` | src/GitHub_Updater/Theme.php:133-150 | The patching never changes the slug or `fields`. |
| `ThemeInfo.DescribeNoMatch` | src/GitHub_Updater/Theme.php:133-153 | If no configured repo equals the slug, the response is returned unmodified. |
| `ThemeInfo.DescribeLastMatch` | src/GitHub_Updater/Theme.php:133-149 | The last matching theme supplies every copied field. `version` is its remote version, `description` is its sections joined with newlines, and `homepage` is its uri. |
| `ThemeInfo.DescriptionKeepsSections` | src/GitHub_Updater/Theme.php:140 | When no section contains a newline, splitting the description at newlines gives back the sections' contents. |
| `Php.ExplodeImplode` | src/GitHub_Updater/Theme.php:140 | Splitting at a one-character separator inverts `implode` when no piece contains that character. |
| `ThemeBrowser.Decorate` | src/GitHub_Updater/Theme.php:279-283 | Decorates one prepared entry. Its id, name, version and `hasUpdate` are kept. With `hasUpdate` the description is kept. Without it, `update` is kept and the old description is a prefix of the new one. |
| `ThemeBrowser.Customized` | src/GitHub_Updater/Theme.php:274-286 | Decorates every present entry in configuration order. The set of prepared themes is unchanged: absent themes are skipped, and nothing is added or removed. |
| `ThemeBrowser.CustomizedFrame` | src/GitHub_Updater/Theme.php:274-277 | A prepared theme that no configured repo names is unchanged. |
| `ThemeBrowser.CustomizedEntry` | src/GitHub_Updater/Theme.php:279-283 | Take a prepared theme named by one configured theme. With `hasUpdate`, its `update` becomes the content. Without, the content is appended to its `description`. Nothing else in the entry changes. |

## Left out

- Remote fetching (`get_remote_info`, `get_repo_meta`, `get_remote_tag`, `get_remote_changes`, lines 62-70) is network I/O in classes that are not part of this model. The configured themes arrive with `remoteVersion`, `downloadLink`, `rollback` and `sections` already filled in.
- `get_theme_meta`, `get_changelog_filename`, `set_defaults`, `delete_all_transients` on a force-check, and `make_force_check_transient` are host storage or live in Base, which is not part of this model.
- `can_update` and `construct_download_link` are parameters with no assumed meaning. Their version ordering and URL formats are defined in Base, GitHub_API and Bitbucket_API, which are not part of this model.
- `_append_theme_actions_content` (lines 296-339) is the parameter `content`. It is this class's own helper, but it only builds HTML: the update notice, or the version chooser that lists the branch and the rollback keys. Its choice between the two, made on the stored `up_to_date` entry, is not modelled.
- The provider switch maps a theme's type to one of two adapters (`PackageFor`). Types other than the two known ones are not modelled. In PHP such a type reuses the previous theme's adapter, or fails at line 62 when it is on the first theme, where `$repo_api` has no value yet.
- Hook registration appears only as decisions (`updateRowRepos`, `filtersUpdateThemes`, `customizesThemeBrowser`). The `remove_after_theme_row` action, the other filters that are always added, `fix_display_none_in_themes_api`, `Settings::$ghu_themes` and the `do_action("in_theme_update_message-$theme_key", ...)` call that wp_theme_update_row fires (line 241) are host glue.
- `is_multisite()` and the `get_bloginfo('version') < 3.8` comparison are the inputs `multisite` and `legacyWordPress`. The loose float comparison is not modelled.
- All HTML output (`echo`, `printf`, `_e`, output buffering, links, nonces, the jQuery version chooser) is presentation. The update row is modelled only as which notices appear, the tags offered, and whether the update is automatic.
- PHP's conversion of numeric string keys to integers is not modelled. Rollback keys are strings, and `Empty` treats `"0"` as empty as PHP does.
- `customize_theme_update_html` also skips a prepared entry that is an empty array. Prepared entries are records here, so only absent entries are skipped.
- The `up_to_date[repo]` entry is written as a whole record. PHP assigns its `rollback` and `response` keys one by one, and any other keys already stored there would survive.
- The transient is assumed to exist when the constructor reads and writes it.
- The held tag persists across the constructor's loop. So after the first targeted theme, no later theme gets the update-row hook either. The model keeps this behaviour as written (`UpdateRowRepos`).
