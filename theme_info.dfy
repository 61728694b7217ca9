/**
 * The themes_api filter's answer for a git-sourced theme: the response object's fields
 * are overwritten from the configured theme whose repo equals the requested slug.
 */
module ThemeInfo {
  import opened Php
  import opened ThemeData

  /** What the filter returns: its first argument untouched, or the (patched) response object. */
  datatype FilterResult<T> = Declined(prior: T) | Answered(response: ApiResponse)

  /** The request wants sections: `fields` is not set, or `fields['sections']` is truthy. */
  predicate SectionsWanted(fields: Option<map<string, bool>>) {
    fields.None? || ("sections" in fields.value && fields.value["sections"])
  }

  /** The contents of the sections, in order. */
  function Contents(sections: seq<Section>): seq<string> {
    seq(|sections|, i requires 0 <= i < |sections| => sections[i].content)
  }

  /** The theme's details copied into the response; `fields` is kept. */
  function Describe(r: ApiResponse, t: ThemeConfig): (res: ApiResponse)
    ensures res.fields == r.fields
  {
    r.(slug := t.repo, name := t.name, homepage := t.uri, version := t.remoteVersion,
       sections := t.sections, description := Implode("\n", Contents(t.sections)),
       author := t.author, previewUrl := t.themeUri, requiresVersion := t.requiresVersion,
       testedVersion := t.testedVersion, downloaded := t.downloaded, lastUpdated := t.lastUpdated,
       rating := t.rating, numRatings := t.numRatings)
  }

  /** Copying a theme in overwrites every field but `fields`: what the response held before is lost. */
  lemma DescribeOverwrites(r: ApiResponse, r': ApiResponse, t: ThemeConfig)
    requires r'.fields == r.fields
    ensures Describe(r', t) == Describe(r, t)
  {
  }

  /** The response after every configured theme whose repo equals the slug has been copied in, in order. */
  function DescribeMatches(config: seq<ThemeConfig>, r: ApiResponse): (res: ApiResponse)
    ensures res.slug == r.slug && res.fields == r.fields
    decreases |config|
  {
    if config == [] then r
    else
      var acc, t := DescribeMatches(config[..|config| - 1], r), config[|config| - 1];
      if acc.slug == t.repo then Describe(acc, t) else acc
  }

  /** A slug that no configured repo has leaves the response exactly as it came. */
  lemma {:induction false} DescribeNoMatch(config: seq<ThemeConfig>, r: ApiResponse)
    requires forall j :: 0 <= j < |config| ==> config[j].repo != r.slug
    ensures DescribeMatches(config, r) == r
  {
    if config != [] {
      DescribeNoMatch(config[..|config| - 1], r);
    }
  }

  /**
   * The last configured theme for the slug supplies every copied field: the version is its
   * remote version and the description is its sections joined by newlines.
   */
  lemma {:induction false} DescribeLastMatch(config: seq<ThemeConfig>, r: ApiResponse, i: nat)
    requires i < |config| && config[i].repo == r.slug
    requires forall j :: i < j < |config| ==> config[j].repo != r.slug
    ensures var res, t := DescribeMatches(config, r), config[i];
      res == Describe(r, t)
      && res.version == t.remoteVersion
      && res.description == Implode("\n", Contents(t.sections))
      && res.homepage == t.uri && res.name == t.name
  {
    var n := |config|;
    var prefix := config[..n - 1];
    if i == n - 1 {
      // Describe overwrites every field but `fields`, which DescribeMatches keeps.
      DescribeOverwrites(DescribeMatches(prefix, r), r, config[i]);
    } else {
      assert prefix[i] == config[i];
      DescribeLastMatch(prefix, r, i);
    }
  }

  /**
   * When no section contains a newline, the sections' contents can be read back from the
   * description by splitting it at newlines.
   */
  lemma DescriptionKeepsSections(t: ThemeConfig, r: ApiResponse)
    requires |t.sections| > 0
    requires forall k :: 0 <= k < |t.sections| ==> '\n' !in t.sections[k].content
    ensures Explode('\n', Describe(r, t).description) == Contents(t.sections)
  {
    ExplodeImplode('\n', Contents(t.sections));
  }
}
