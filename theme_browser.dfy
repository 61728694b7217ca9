/**
 * customize_theme_update_html: on a single site, the themes prepared for the theme
 * browser get the updater's content, in `update` when WordPress already flags an
 * update and appended to `description` otherwise.
 */
module ThemeBrowser {
  import opened ThemeData

  /** One prepared theme after the updater's content has been added. */
  function Decorate(p: PreparedTheme, content: string): (d: PreparedTheme)
    ensures d.id == p.id && d.name == p.name && d.version == p.version && d.hasUpdate == p.hasUpdate
    ensures p.hasUpdate ==> d.description == p.description
    ensures !p.hasUpdate ==>
      d.update == p.update && |p.description| <= |d.description| && d.description[..|p.description|] == p.description
  {
    if p.hasUpdate then p.(update := content) else p.(description := p.description + content)
  }

  /**
   * The prepared themes after every configured theme present among them has been
   * decorated, in order; `content` is _append_theme_actions_content.
   */
  function Customized(config: seq<ThemeConfig>, prepared: map<string, PreparedTheme>, content: ThemeConfig -> string): (r: map<string, PreparedTheme>)
    ensures r.Keys == prepared.Keys
    decreases |config|
  {
    if config == [] then prepared
    else
      var m, t := Customized(config[..|config| - 1], prepared, content), config[|config| - 1];
      if t.repo in m then m[t.repo := Decorate(m[t.repo], content(t))] else m
  }

  /** A prepared theme that no configured repo names is left exactly as it was. */
  lemma {:induction false} CustomizedFrame(config: seq<ThemeConfig>, prepared: map<string, PreparedTheme>, content: ThemeConfig -> string, k: string)
    requires k in prepared
    requires forall j :: 0 <= j < |config| ==> config[j].repo != k
    ensures k in Customized(config, prepared, content)
    ensures Customized(config, prepared, content)[k] == prepared[k]
  {
    if config != [] {
      CustomizedFrame(config[..|config| - 1], prepared, content, k);
    }
  }

  /**
   * A prepared theme named by exactly one configured theme t: with `hasUpdate`, `update` is
   * replaced by t's content; without, t's content is appended to `description`; nothing
   * else of the entry changes.
   */
  lemma {:induction false} CustomizedEntry(config: seq<ThemeConfig>, prepared: map<string, PreparedTheme>, content: ThemeConfig -> string, i: nat)
    requires i < |config| && config[i].repo in prepared
    requires forall j :: 0 <= j < |config| && j != i ==> config[j].repo != config[i].repo
    ensures var t := config[i]; var res, p := Customized(config, prepared, content), prepared[t.repo];
      t.repo in res
      && (p.hasUpdate ==> res[t.repo] == p.(update := content(t)))
      && (!p.hasUpdate ==> res[t.repo] == p.(description := p.description + content(t)))
  {
    var n := |config|;
    var prefix := config[..n - 1];
    if i == n - 1 {
      CustomizedFrame(prefix, prepared, content, config[i].repo);
    } else {
      assert prefix[i] == config[i];
      CustomizedEntry(prefix, prepared, content, i);
    }
  }
}
