/**
 * What wp_theme_update_row shows in a theme's row (multisite and older WordPress), as
 * data instead of HTML: the up-to-date notice with the rollback tags it offers, and
 * the update notice.
 */
module ThemeRows {
  import opened Php
  import opened ThemeData

  /** The rollback part of the up-to-date notice. */
  datatype RollbackOffer = NoPreviousTags | RollbackTo(tags: seq<string>)

  /** The update notice: the new version, and whether a package allows updating right away. */
  datatype UpdateOffer = UpdateOffer(newVersion: string, automatic: bool)

  /** A theme's update row: each notice is shown or not. */
  datatype UpdateRow = UpdateRow(upToDate: Option<RollbackOffer>, update: Option<UpdateOffer>)

  /** At most n leading keys, stopping before the first empty one. */
  function LeadingTags(keys: seq<string>, n: nat): (w: seq<string>)
    ensures |w| <= n && |w| <= |keys|
    decreases n
  {
    if n == 0 || keys == [] || Empty(keys[0]) then []
    else [keys[0]] + LeadingTags(keys[1..], n - 1)
  }

  /** The rollback tags a row offers: the newest key is skipped, then up to three more are shown. */
  function RollbackWindow(keys: seq<string>): (w: seq<string>)
    ensures |w| <= 3 && |w| <= |keys|
    ensures |keys| > 0 ==> |w| < |keys|
    ensures |keys| <= 1 ==> w == []
  {
    if keys == [] then [] else LeadingTags(keys[1..], 3)
  }

  /** w is a run of at most n non-empty leading keys that stops only at n, the end, or an empty key. */
  predicate IsMaximalRun(keys: seq<string>, n: nat, w: seq<string>) {
    && |w| <= n && |w| <= |keys|
    && w == keys[..|w|]
    && (forall j :: 0 <= j < |w| ==> !Empty(w[j]))
    && (|w| < n && |w| < |keys| ==> Empty(keys[|w|]))
  }

  lemma {:induction false} LeadingTagsIsMaximalRun(keys: seq<string>, n: nat)
    ensures IsMaximalRun(keys, n, LeadingTags(keys, n))
  {
    if !(n == 0 || keys == [] || Empty(keys[0])) {
      LeadingTagsIsMaximalRun(keys[1..], n - 1);
      var w := LeadingTags(keys[1..], n - 1);
      assert keys[..1 + |w|] == [keys[0]] + keys[1..][..|w|];
    }
  }

  lemma {:induction false} MaximalRunIsLeadingTags(keys: seq<string>, n: nat, w: seq<string>)
    requires IsMaximalRun(keys, n, w)
    ensures w == LeadingTags(keys, n)
  {
    if n == 0 || keys == [] {
    } else if !Empty(keys[0]) {
      assert |w| > 0;
      var w' := w[1..];
      assert keys[1..][..|w'|] == w';
      assert |w'| < n - 1 && |w'| < |keys[1..]| ==> keys[1..][|w'|] == keys[|w|];
      assert forall j :: 0 <= j < |w'| ==> w'[j] == w[j + 1];
      MaximalRunIsLeadingTags(keys[1..], n - 1, w');
      assert w == [keys[0]] + w';
    }
  }

  /**
   * The offered tags are exactly the longest run of consecutive non-empty keys after the
   * newest one, in their original order, capped at three.
   */
  lemma {:induction false} RollbackWindowCharacterized(keys: seq<string>, w: seq<string>)
    requires |keys| > 0
    ensures w == RollbackWindow(keys) <==> IsMaximalRun(keys[1..], 3, w)
  {
    LeadingTagsIsMaximalRun(keys[1..], 3);
    if IsMaximalRun(keys[1..], 3, w) {
      MaximalRunIsLeadingTags(keys[1..], 3, w);
    }
  }

  /**
   * The window holds at most three tags, none of them empty, taken in order from the keys
   * after the first; it is empty when there are no keys.
   */
  lemma {:induction false} RollbackWindowBounds(keys: seq<string>)
    ensures var w := RollbackWindow(keys);
      |w| <= 3
      && (keys == [] ==> w == [])
      && (keys != [] ==> 1 + |w| <= |keys| && w == keys[1..1 + |w|])
      && (forall j :: 0 <= j < |w| ==> !Empty(w[j]))
  {
    if keys != [] {
      LeadingTagsIsMaximalRun(keys[1..], 3);
    }
  }

  /** The newest key of an ordered array is never offered as a rollback target. */
  lemma {:induction false} RollbackWindowSkipsNewest(rollback: PhpArray<string>)
    requires |rollback| > 0
    ensures rollback[0].0 !in RollbackWindow(ArrayKeys(rollback))
  {
    var keys := ArrayKeys(rollback);
    RollbackWindowBounds(keys);
  }
}
