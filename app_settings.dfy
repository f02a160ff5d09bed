/**
 * AppSettings.settings_scanning_command of covscanhub/scan/models.py: the
 * scanning command of a release, taken from the SCANNING_COMMAND_RELSPEC
 * settings when one of them names the release's short tag, else the
 * DEFAULT_SCANNING_COMMAND setting.
 */
module AppSettings {
  import opened Wrappers

  /** DoesNotExist of a missing setting row; ValueError of a value that is not JSON. */
  datatype SettingsError = DoesNotExist | NotJson

  /**
   * A SCANNING_COMMAND_RELSPEC row as json.loads reads it: an object mapping
   * release short tags to commands, or None when the text is not JSON.
   */
  type RelspecRow = Option<map<string, string>>

  /** The merged relspec: rows in table order, each later row overriding earlier ones (dict.update). */
  function MergeAll(rows: seq<RelspecRow>): (r: Result<map<string, string>, SettingsError>)
    ensures r.Failure? <==> exists i :: 0 <= i < |rows| && rows[i].None?
    decreases |rows|
  {
    if rows == [] then Success(map[])
    else
      var init := rows[..|rows| - 1];
      var last := rows[|rows| - 1];
      assert forall i :: 0 <= i < |init| ==> init[i] == rows[i];
      match MergeAll(init)
      case Failure(e) => Failure(e)
      case Success(m) =>
        if last.None? then Failure(NotJson) else Success(m + last.value)
  }

  /**
   * A release tag is in the merged relspec exactly when some row names it,
   * and its command is the one of the last row that names it.
   */
  lemma MergeAllLastWins(rows: seq<RelspecRow>, tag: string)
    requires MergeAll(rows).Success?
    ensures tag in MergeAll(rows).value <==> exists i :: 0 <= i < |rows| && tag in rows[i].value
    ensures tag in MergeAll(rows).value ==>
      exists i :: 0 <= i < |rows| && tag in rows[i].value &&
        MergeAll(rows).value[tag] == rows[i].value[tag] &&
        forall j :: i < j < |rows| ==> tag !in rows[j].value
  {
    MergeAllKeys(rows, tag);
    if tag in MergeAll(rows).value {
      var i := MergeAllLast(rows, tag);
    }
  }

  /** A release is in the merged relspec exactly when some row names it. */
  lemma {:induction false} MergeAllKeys(rows: seq<RelspecRow>, tag: string)
    requires MergeAll(rows).Success?
    ensures tag in MergeAll(rows).value <==> exists i :: 0 <= i < |rows| && tag in rows[i].value
    decreases |rows|
  {
    if rows != [] {
      var n := |rows| - 1;
      var init := rows[..n];
      MergeAllStep(rows);
      MergeAllKeys(init, tag);
      if tag !in rows[n].value && tag !in MergeAll(init).value {
        forall i | 0 <= i < |rows| ensures tag !in rows[i].value {
          if i < n { assert rows[i] == init[i]; }
        }
      } else if tag !in rows[n].value {
        var i :| 0 <= i < n && tag in init[i].value;
        assert rows[i] == init[i];
      }
    }
  }

  /** The index of the last row naming a release found in the merged relspec, whose command it carries. */
  lemma {:induction false} MergeAllLast(rows: seq<RelspecRow>, tag: string) returns (i: nat)
    requires MergeAll(rows).Success? && tag in MergeAll(rows).value
    ensures i < |rows| && tag in rows[i].value && MergeAll(rows).value[tag] == rows[i].value[tag]
    ensures forall j :: i < j < |rows| ==> tag !in rows[j].value
    decreases |rows|
  {
    var n := |rows| - 1;
    var init := rows[..n];
    MergeAllStep(rows);
    if tag in rows[n].value {
      i := n;
    } else {
      i := MergeAllLast(init, tag);
      assert rows[i] == init[i];
    }
  }

  /** The last row of a readable relspec overrides the merge of the rows before it. */
  lemma MergeAllStep(rows: seq<RelspecRow>)
    requires rows != [] && MergeAll(rows).Success?
    ensures MergeAll(rows[..|rows| - 1]).Success? && rows[|rows| - 1].Some?
    ensures MergeAll(rows).value == MergeAll(rows[..|rows| - 1]).value + rows[|rows| - 1].value
  {
  }

  /** AppSettings._settings_scanning_command_relspec: folds the rows into one dictionary. */
  method MergeRelspec(rows: seq<RelspecRow>) returns (r: Result<map<string, string>, SettingsError>)
    ensures r == MergeAll(rows)
  {
    var merged: map<string, string> := map[];
    var k := 0;
    while k < |rows|
      invariant 0 <= k <= |rows|
      invariant MergeAll(rows[..k]) == Success(merged)
    {
      assert rows[..k + 1][..k] == rows[..k];
      if rows[k].None? {
        assert forall i :: 0 <= i < k + 1 ==> rows[..k + 1][i] == rows[i];
        assert MergeAll(rows[..k + 1]).Failure?;
        MergeFailsOnPrefix(rows, k + 1);
        return Failure(NotJson);
      }
      merged := merged + rows[k].value;
      k := k + 1;
    }
    assert rows[..k] == rows;
    return Success(merged);
  }

  /** A relspec that cannot be read in some prefix cannot be read at all. */
  lemma MergeFailsOnPrefix(rows: seq<RelspecRow>, n: nat)
    requires n <= |rows| && MergeAll(rows[..n]).Failure?
    ensures MergeAll(rows) == Failure(NotJson)
  {
    var i :| 0 <= i < n && rows[..n][i].None?;
    assert rows[i].None?;
    MergeAllErrorIsNotJson(rows);
  }

  lemma {:induction false} MergeAllErrorIsNotJson(rows: seq<RelspecRow>)
    ensures MergeAll(rows).Failure? ==> MergeAll(rows) == Failure(NotJson)
    decreases |rows|
  {
    if rows != [] {
      MergeAllErrorIsNotJson(rows[..|rows| - 1]);
    }
  }

  /**
   * settings_scanning_command(short_tag): the release's command when the
   * merged relspec has it (KeyError otherwise), else the default setting.
   * `default` is None when the DEFAULT_SCANNING_COMMAND row is missing, and
   * Some(None) when its value is NULL.
   */
  function ScanningCommand(rows: seq<RelspecRow>, default: Option<Option<string>>, shortTag: string)
    : (r: Result<Option<string>, SettingsError>)
    ensures r == Failure(NotJson) <==> exists i :: 0 <= i < |rows| && rows[i].None?
    ensures r == Failure(DoesNotExist) <==>
      default.None? && forall i :: 0 <= i < |rows| ==> rows[i].Some? && shortTag !in rows[i].value
  {
    MergeAllErrorIsNotJson(rows);
    match MergeAll(rows)
    case Failure(e) => Failure(e)
    case Success(m) =>
      MergeAllKeys(rows, shortTag);
      if shortTag in m then Success(Some(m[shortTag]))
      else if default.None? then Failure(DoesNotExist)
      else Success(default.value)
  }

  /**
   * The release-specific command wins: it is the one of the last row naming
   * the release; the default is used exactly when no row names it.
   */
  lemma ScanningCommandFallback(rows: seq<RelspecRow>, default: Option<Option<string>>, shortTag: string)
    requires forall i :: 0 <= i < |rows| ==> rows[i].Some?
    ensures MergeAll(rows).Success?
    ensures (exists i :: 0 <= i < |rows| && shortTag in rows[i].value) ==>
      exists i :: 0 <= i < |rows| && shortTag in rows[i].value &&
        ScanningCommand(rows, default, shortTag) == Success(Some(rows[i].value[shortTag])) &&
        forall j :: i < j < |rows| ==> shortTag !in rows[j].value
    ensures (forall i :: 0 <= i < |rows| ==> shortTag !in rows[i].value) ==>
      ScanningCommand(rows, default, shortTag) == (if default.None? then Failure(DoesNotExist) else Success(default.value))
  {
    MergeAllLastWins(rows, shortTag);
  }

  /** AppSettings.settings_scanning_command. */
  method SettingsScanningCommand(rows: seq<RelspecRow>, default: Option<Option<string>>, shortTag: string)
    returns (r: Result<Option<string>, SettingsError>)
    ensures r == ScanningCommand(rows, default, shortTag)
  {
    var relspec := MergeRelspec(rows);
    if relspec.Failure? {
      return Failure(relspec.error);
    }
    if shortTag in relspec.value {
      return Success(Some(relspec.value[shortTag]));
    }
    if default.None? {
      return Failure(DoesNotExist);
    }
    return Success(default.value);
  }
}
