/**
 * The values the theme updater works on: the configured git-sourced themes, the
 * update_themes site transient, the themes_api response object and the entries
 * WordPress prepares for the theme browser.
 */
module ThemeData {
  import opened Php

  datatype Option<T> = None | Some(value: T)

  /** The repository host of a theme, given by its `type` ("github_theme" or "bitbucket_theme"). */
  datatype Provider = GitHub | Bitbucket

  /** One section of a theme's remote details (description, changelog, ...). */
  datatype Section = Section(key: string, content: string)

  /**
   * A configured theme, as the constructor's remote fetch leaves it: `remoteVersion`,
   * `downloadLink`, `rollback` (tag => download data) and `sections` come from the
   * remote repository.
   */
  datatype ThemeConfig = ThemeConfig(
    provider: Provider,
    repo: string,
    name: string,
    uri: string,
    themeUri: string,
    author: string,
    branch: string,
    remoteVersion: string,
    downloadLink: string,
    rollback: PhpArray<string>,
    sections: seq<Section>,
    requiresVersion: string,
    testedVersion: string,
    downloaded: string,
    lastUpdated: string,
    rating: string,
    numRatings: string)

  /** The repos of the given themes, in order. */
  function Repos(config: seq<ThemeConfig>): seq<string> {
    seq(|config|, i requires 0 <= i < |config| => config[i].repo)
  }

  /** An entry of the transient's `response` table: `new_version`, `url`, `package`. */
  datatype Update = Update(newVersion: string, url: string, package: string)

  /** An entry of the transient's `up_to_date` table: `rollback` and `response`. */
  datatype UpToDate = UpToDate(rollback: PhpArray<string>, response: Update)

  /** The update_themes site transient, reduced to the two tables keyed by repo. */
  datatype UpdateThemes = UpdateThemes(response: map<string, Update>, upToDate: map<string, UpToDate>)

  /**
   * The object handed to the themes_api filter. `fields` is absent or a table of
   * requested fields, each value standing for its PHP truthiness.
   */
  datatype ApiResponse = ApiResponse(
    slug: string,
    fields: Option<map<string, bool>>,
    name: string,
    homepage: string,
    version: string,
    sections: seq<Section>,
    description: string,
    author: string,
    previewUrl: string,
    requiresVersion: string,
    testedVersion: string,
    downloaded: string,
    lastUpdated: string,
    rating: string,
    numRatings: string)

  /** A theme as prepared for the theme browser; `hasUpdate` stands for its PHP truthiness. */
  datatype PreparedTheme = PreparedTheme(
    id: string,
    name: string,
    version: string,
    hasUpdate: bool,
    update: string,
    description: string)

  /**
   * The download-link builders of the two provider adapters: `construct_download_link(tag)`
   * of GitHub_API and of Bitbucket_API, whose URL formats are not part of this model.
   */
  datatype ProviderApis = ProviderApis(
    github: (ThemeConfig, string) -> string,
    bitbucket: (ThemeConfig, string) -> string)

  /** The package URL for a tag, built by the adapter the theme's type selects. */
  function PackageFor(apis: ProviderApis, t: ThemeConfig, tag: string): string {
    match t.provider
    case GitHub => apis.github(t, tag)
    case Bitbucket => apis.bitbucket(t, tag)
  }

  /** The package depends only on the adapter the theme's type selects: the other one is never consulted. */
  lemma PackageUsesSelectedAdapter(apis: ProviderApis, other: ProviderApis, t: ThemeConfig, tag: string)
    requires t.provider == GitHub ==> other.github == apis.github
    requires t.provider == Bitbucket ==> other.bitbucket == apis.bitbucket
    ensures PackageFor(other, t, tag) == PackageFor(apis, t, tag)
  {
  }
}
