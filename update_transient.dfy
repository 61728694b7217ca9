/**
 * How pre_set_site_transient_update_themes files every configured theme into the
 * update_themes transient: a theme that can update goes into `response`, any other
 * into `up_to_date`, one theme after the other in configuration order.
 */
module UpdateTransient {
  import opened Php
  import opened ThemeData

  /** The (new_version, url, package) triple built for a theme. */
  function UpdateOf(t: ThemeConfig): Update {
    Update(t.remoteVersion, t.uri, t.downloadLink)
  }

  /** The transient after theme t has been filed; `canUpdate` is Base's can_update. */
  function Record(d: UpdateThemes, t: ThemeConfig, canUpdate: ThemeConfig -> bool): (r: UpdateThemes)
    ensures forall k :: k != t.repo ==> SameAt(r.response, d.response, k) && SameAt(r.upToDate, d.upToDate, k)
    ensures SameAt(r.response, d.response, t.repo) || SameAt(r.upToDate, d.upToDate, t.repo)
    ensures Empty(t.uri) ==> r == d
  {
    if Empty(t.uri) then d
    else if canUpdate(t) then d.(response := d.response[t.repo := UpdateOf(t)])
    else d.(upToDate := d.upToDate[t.repo := UpToDate(t.rollback, UpdateOf(t))])
  }

  /** The transient after every theme of config has been filed, in order. */
  function Partition(config: seq<ThemeConfig>, canUpdate: ThemeConfig -> bool, data: UpdateThemes): (r: UpdateThemes)
    ensures data.response.Keys <= r.response.Keys && data.upToDate.Keys <= r.upToDate.Keys
    decreases |config|
  {
    if config == [] then data
    else Record(Partition(config[..|config| - 1], canUpdate, data), config[|config| - 1], canUpdate)
  }

  /** Filing only adds keys for repos that some configured theme with a uri names. */
  lemma {:induction false} PartitionKeys(config: seq<ThemeConfig>, canUpdate: ThemeConfig -> bool, data: UpdateThemes)
    ensures var r := Partition(config, canUpdate, data);
      forall k :: k in r.response.Keys + r.upToDate.Keys && k !in data.response.Keys + data.upToDate.Keys ==>
        exists j :: 0 <= j < |config| && config[j].repo == k && !Empty(config[j].uri)
  {
    if config != [] {
      var n := |config|;
      var prefix, t := config[..n - 1], config[n - 1];
      PartitionKeys(prefix, canUpdate, data);
      var d, r := Partition(prefix, canUpdate, data), Partition(config, canUpdate, data);
      forall k | k in r.response.Keys + r.upToDate.Keys && k !in data.response.Keys + data.upToDate.Keys
        ensures exists j :: 0 <= j < n && config[j].repo == k && !Empty(config[j].uri)
      {
        if k in d.response.Keys + d.upToDate.Keys {
          var j :| 0 <= j < |prefix| && prefix[j].repo == k && !Empty(prefix[j].uri);
          assert config[j] == prefix[j];
        } else {
          assert config[n - 1] == t && t.repo == k && !Empty(t.uri);
        }
      }
    }
  }

  /**
   * The last theme with a non-empty uri for its repo decides that repo's entry: `response`
   * gets its triple when it can update, `up_to_date` gets its rollback and triple otherwise.
   */
  lemma {:induction false} PartitionLastWriter(config: seq<ThemeConfig>, canUpdate: ThemeConfig -> bool, data: UpdateThemes, i: nat)
    requires i < |config| && !Empty(config[i].uri)
    requires forall j :: i < j < |config| && config[j].repo == config[i].repo ==> Empty(config[j].uri)
    ensures var res, t := Partition(config, canUpdate, data), config[i];
      if canUpdate(t) then t.repo in res.response && res.response[t.repo] == UpdateOf(t)
      else t.repo in res.upToDate && res.upToDate[t.repo] == UpToDate(t.rollback, UpdateOf(t))
  {
    var n := |config|;
    if i < n - 1 {
      var prefix := config[..n - 1];
      assert prefix[i] == config[i];
      PartitionLastWriter(prefix, canUpdate, data, i);
    }
  }

  /**
   * `response` is left as it was at repo r when no theme for r with a non-empty uri
   * can update.
   */
  lemma {:induction false} PartitionResponseFrame(config: seq<ThemeConfig>, canUpdate: ThemeConfig -> bool, data: UpdateThemes, r: string)
    requires forall j :: 0 <= j < |config| && config[j].repo == r && !Empty(config[j].uri) ==> !canUpdate(config[j])
    ensures SameAt(Partition(config, canUpdate, data).response, data.response, r)
  {
    if config != [] {
      PartitionResponseFrame(config[..|config| - 1], canUpdate, data, r);
    }
  }

  /**
   * `up_to_date` is left as it was at repo r when every theme for r with a non-empty
   * uri can update.
   */
  lemma {:induction false} PartitionUpToDateFrame(config: seq<ThemeConfig>, canUpdate: ThemeConfig -> bool, data: UpdateThemes, r: string)
    requires forall j :: 0 <= j < |config| && config[j].repo == r && !Empty(config[j].uri) ==> canUpdate(config[j])
    ensures SameAt(Partition(config, canUpdate, data).upToDate, data.upToDate, r)
  {
    if config != [] {
      PartitionUpToDateFrame(config[..|config| - 1], canUpdate, data, r);
    }
  }

  /** A repo with no configured theme of non-empty uri keeps both its entries. */
  lemma {:induction false} PartitionUntouched(config: seq<ThemeConfig>, canUpdate: ThemeConfig -> bool, data: UpdateThemes, r: string)
    requires forall j :: 0 <= j < |config| && config[j].repo == r ==> Empty(config[j].uri)
    ensures var res := Partition(config, canUpdate, data);
      SameAt(res.response, data.response, r) && SameAt(res.upToDate, data.upToDate, r)
  {
    PartitionResponseFrame(config, canUpdate, data, r);
    PartitionUpToDateFrame(config, canUpdate, data, r);
  }

  /**
   * For a theme that is the only one for its repo, exactly one table is written at that
   * repo (none when its uri is empty) and the other keeps its old entry.
   */
  lemma {:induction false} PartitionFilesTheme(config: seq<ThemeConfig>, canUpdate: ThemeConfig -> bool, data: UpdateThemes, i: nat)
    requires i < |config|
    requires forall j :: 0 <= j < |config| && j != i ==> config[j].repo != config[i].repo
    ensures var res, t := Partition(config, canUpdate, data), config[i];
      if Empty(t.uri) then
        SameAt(res.response, data.response, t.repo) && SameAt(res.upToDate, data.upToDate, t.repo)
      else if canUpdate(t) then
        t.repo in res.response && res.response[t.repo] == UpdateOf(t)
        && SameAt(res.upToDate, data.upToDate, t.repo)
      else
        t.repo in res.upToDate && res.upToDate[t.repo] == UpToDate(t.rollback, UpdateOf(t))
        && SameAt(res.response, data.response, t.repo)
  {
    var t := config[i];
    if Empty(t.uri) {
      PartitionUntouched(config, canUpdate, data, t.repo);
    } else {
      PartitionLastWriter(config, canUpdate, data, i);
      if canUpdate(t) {
        PartitionUpToDateFrame(config, canUpdate, data, t.repo);
      } else {
        PartitionResponseFrame(config, canUpdate, data, t.repo);
      }
    }
  }
}
