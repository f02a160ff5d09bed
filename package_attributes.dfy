/**
 * PackageAttribute and the attribute lookups of Package in
 * covscanhub/scan/models.py: per-release BLOCKED and ELIGIBLE flags stored
 * as "Y"/"N" strings, falling back to the package's own nullable flags when
 * no attribute row exists.
 */
module PackageAttributes {
  import opened Wrappers

  const BlockedKey: string := "BLOCKED"
  const EligibleKey: string := "ELIGIBLE"

  /** A PackageAttribute row; key and value are nullable. */
  datatype PackageAttribute = PackageAttribute(key: Option<string>, value: Option<string>, package: nat, release: nat)

  /** The Package fields the lookups fall back to (nullable booleans). */
  datatype Package = Package(id: nat, blocked: Option<bool>, eligible: Option<bool>)

  /** ValueError of _is; MultipleObjectsReturned of a `get` matching several rows. */
  datatype AttrError = ValueError | MultipleObjectsReturned

  /** The outcome of `objects.get(package=, release=, key=)`. */
  datatype Lookup = NotFound | Unique(index: nat) | Multiple

  predicate Matches(a: PackageAttribute, package: nat, release: nat, key: string)
  {
    a.package == package && a.release == release && a.key == Some(key)
  }

  /** The indices of the rows matching the filter, in table order. */
  function MatchIndices(rows: seq<PackageAttribute>, package: nat, release: nat, key: string): (r: seq<nat>)
    ensures forall k :: 0 <= k < |r| ==> r[k] < |rows| && Matches(rows[r[k]], package, release, key)
    ensures forall i :: 0 <= i < |rows| && Matches(rows[i], package, release, key) ==> i in r
    ensures forall k, l :: 0 <= k < l < |r| ==> r[k] < r[l]
    decreases |rows|
  {
    if rows == [] then []
    else
      var init := rows[..|rows| - 1];
      var r := MatchIndices(init, package, release, key);
      if Matches(rows[|rows| - 1], package, release, key) then r + [|rows| - 1] else r
  }

  /** `get`: the one matching row, or which of the two exceptions it raises. */
  function Get(rows: seq<PackageAttribute>, package: nat, release: nat, key: string): (r: Lookup)
    ensures r.Unique? ==> r.index < |rows| && Matches(rows[r.index], package, release, key)
    ensures r.NotFound? <==> forall i :: 0 <= i < |rows| ==> !Matches(rows[i], package, release, key)
    ensures r.Unique? <==> |MatchIndices(rows, package, release, key)| == 1
    ensures r.Unique? ==> r.index == MatchIndices(rows, package, release, key)[0]
    ensures r.Multiple? <==> |MatchIndices(rows, package, release, key)| >= 2
  {
    var m := MatchIndices(rows, package, release, key);
    if |m| == 0 then NotFound
    else if |m| == 1 then Unique(m[0])
    else Multiple
  }

  /** PackageAttribute._is: the flag is set exactly when the value is "Y"; a row with another key raises. */
  function Is(a: PackageAttribute, key: string): (r: Result<bool, AttrError>)
    ensures r.Success? <==> a.key == Some(key)
    ensures r.Success? ==> (r.value <==> a.value == Some("Y"))
  {
    if a.key == Some(key) then Success(a.value == Some("Y")) else Failure(ValueError)
  }

  /**
   * Package.is_blocked / is_eligible for `key`. The lookup never raises
   * ValueError, because the row it finds has the key it asked for: without a
   * row it answers the package's own flag, with one row whether that row
   * reads "Y", and with several it raises MultipleObjectsReturned.
   */
  function Flag(rows: seq<PackageAttribute>, package: nat, release: nat, key: string, fallback: Option<bool>)
    : (r: Result<Option<bool>, AttrError>)
    ensures r != Failure(ValueError)
    ensures Get(rows, package, release, key).NotFound? ==> r == Success(fallback)
    ensures Get(rows, package, release, key).Unique? ==>
      r == Success(Some(rows[Get(rows, package, release, key).index].value == Some("Y")))
    ensures Get(rows, package, release, key).Multiple? ==> r == Failure(MultipleObjectsReturned)
  {
    match Get(rows, package, release, key)
    case NotFound => Success(fallback)
    case Unique(i) =>
      (match Is(rows[i], key)
       case Success(b) => Success(Some(b))
       case Failure(e) => Failure(e))
    case Multiple => Failure(MultipleObjectsReturned)
  }

  /** Package.is_blocked: the BLOCKED attribute of the release, else Package.blocked. */
  function IsBlocked(rows: seq<PackageAttribute>, pkg: Package, release: nat): (r: Result<Option<bool>, AttrError>)
    ensures Get(rows, pkg.id, release, BlockedKey).NotFound? ==> r == Success(pkg.blocked)
    ensures Get(rows, pkg.id, release, BlockedKey).Unique? ==>
      r == Success(Some(rows[Get(rows, pkg.id, release, BlockedKey).index].value == Some("Y")))
    ensures Get(rows, pkg.id, release, BlockedKey).Multiple? ==> r == Failure(MultipleObjectsReturned)
  {
    Flag(rows, pkg.id, release, BlockedKey, pkg.blocked)
  }

  /** Package.is_eligible: the ELIGIBLE attribute of the release, else Package.eligible. */
  function IsEligible(rows: seq<PackageAttribute>, pkg: Package, release: nat): (r: Result<Option<bool>, AttrError>)
    ensures Get(rows, pkg.id, release, EligibleKey).NotFound? ==> r == Success(pkg.eligible)
    ensures Get(rows, pkg.id, release, EligibleKey).Unique? ==>
      r == Success(Some(rows[Get(rows, pkg.id, release, EligibleKey).index].value == Some("Y")))
    ensures Get(rows, pkg.id, release, EligibleKey).Multiple? ==> r == Failure(MultipleObjectsReturned)
  {
    Flag(rows, pkg.id, release, EligibleKey, pkg.eligible)
  }

  /** The string create_new_bool stores. */
  function YesNo(b: bool): (s: string)
    ensures s == "Y" <==> b
  {
    if b then "Y" else "N"
  }

  /** How the database renders a Python bool written into a character column. */
  function PyStr(b: bool): (s: string)
    ensures s != "Y"
  {
    if b then "True" else "False"
  }

  function NewBool(package: nat, release: nat, key: string, value: bool): PackageAttribute
  {
    PackageAttribute(Some(key), Some(YesNo(value)), package, release)
  }

  /** Appending a row adds its index to the matches exactly when it matches. */
  lemma {:induction false} MatchIndicesAppend(rows: seq<PackageAttribute>, a: PackageAttribute, package: nat, release: nat, key: string)
    ensures MatchIndices(rows + [a], package, release, key) ==
      MatchIndices(rows, package, release, key) + (if Matches(a, package, release, key) then [|rows|] else [])
  {
    assert (rows + [a])[..|rows|] == rows;
  }

  /** Rewriting the value of a row does not change which rows match. */
  lemma {:induction false} MatchIndicesIgnoreValue(rows: seq<PackageAttribute>, i: nat, v: Option<string>, package: nat, release: nat, key: string)
    requires i < |rows|
    ensures MatchIndices(rows[i := rows[i].(value := v)], package, release, key) == MatchIndices(rows, package, release, key)
    decreases |rows|
  {
    var rows' := rows[i := rows[i].(value := v)];
    if i < |rows| - 1 {
      assert rows'[..|rows'| - 1] == rows[..|rows| - 1][i := rows[i].(value := v)];
      MatchIndicesIgnoreValue(rows[..|rows| - 1], i, v, package, release, key);
    } else {
      assert rows'[..|rows'| - 1] == rows[..|rows| - 1];
    }
  }

  /**
   * create_new_bool round trip: where no attribute with that key existed,
   * the new row is the one found and the lookup answers the stored flag.
   */
  lemma NewBoolRoundTrip(rows: seq<PackageAttribute>, package: nat, release: nat, key: string, b: bool, fallback: Option<bool>)
    requires Get(rows, package, release, key) == NotFound
    ensures Get(rows + [NewBool(package, release, key, b)], package, release, key) == Unique(|rows|)
    ensures Flag(rows + [NewBool(package, release, key, b)], package, release, key, fallback) == Success(Some(b))
  {
    MatchIndicesAppend(rows, NewBool(package, release, key, b), package, release, key);
  }

  /** create_eligible as written: an existing attribute gets the raw argument, rendered "True" or "False". */
  function CreateEligibleRowsAsWritten(rows: seq<PackageAttribute>, package: nat, release: nat, eligible: bool)
    : (r: Result<seq<PackageAttribute>, AttrError>)
    ensures r.Success? <==> !Get(rows, package, release, EligibleKey).Multiple?
    ensures r.Success? ==> |rows| <= |r.value| <= |rows| + 1
    ensures r.Success? ==> forall j :: 0 <= j < |rows| && Get(rows, package, release, EligibleKey) != Unique(j) ==>
      r.value[j] == rows[j]
    // afterwards the ELIGIBLE row is unique: the appended one, or the one that existed
    ensures r.Success? ==>
      Get(r.value, package, release, EligibleKey) ==
      (if Get(rows, package, release, EligibleKey).NotFound? then Unique(|rows|) else Get(rows, package, release, EligibleKey))
    ensures r.Success? ==> r.value[Get(r.value, package, release, EligibleKey).index].value == Some(if Get(rows, package, release, EligibleKey).NotFound? then YesNo(eligible) else PyStr(eligible))
  {
    match Get(rows, package, release, EligibleKey)
    case NotFound =>
      NewBoolRoundTrip(rows, package, release, EligibleKey, eligible, None);
      Success(rows + [NewBool(package, release, EligibleKey, eligible)])
    case Unique(i) =>
      MatchIndicesIgnoreValue(rows, i, Some(PyStr(eligible)), package, release, EligibleKey);
      Success(rows[i := rows[i].(value := Some(PyStr(eligible)))])
    case Multiple => Failure(MultipleObjectsReturned)
  }

  /** create_eligible as intended: an existing attribute gets the same "Y"/"N" encoding as a new one. */
  function CreateEligibleRows(rows: seq<PackageAttribute>, package: nat, release: nat, eligible: bool)
    : (r: Result<seq<PackageAttribute>, AttrError>)
    ensures r.Success? <==> !Get(rows, package, release, EligibleKey).Multiple?
    ensures r.Success? ==> |rows| <= |r.value| <= |rows| + 1
    ensures r.Success? ==> forall j :: 0 <= j < |rows| && Get(rows, package, release, EligibleKey) != Unique(j) ==>
      r.value[j] == rows[j]
    // afterwards the ELIGIBLE row is unique: the appended one, or the one that existed
    ensures r.Success? ==>
      Get(r.value, package, release, EligibleKey) ==
      (if Get(rows, package, release, EligibleKey).NotFound? then Unique(|rows|) else Get(rows, package, release, EligibleKey))
    ensures r.Success? ==> r.value[Get(r.value, package, release, EligibleKey).index].value == Some(YesNo(eligible))
  {
    match Get(rows, package, release, EligibleKey)
    case NotFound =>
      NewBoolRoundTrip(rows, package, release, EligibleKey, eligible, None);
      Success(rows + [NewBool(package, release, EligibleKey, eligible)])
    case Unique(i) =>
      MatchIndicesIgnoreValue(rows, i, Some(YesNo(eligible)), package, release, EligibleKey);
      Success(rows[i := rows[i].(value := Some(YesNo(eligible)))])
    case Multiple => Failure(MultipleObjectsReturned)
  }

  /** Corrected create_eligible round trip: afterwards is_eligible answers the flag just stored. */
  lemma CreateEligibleRoundTrip(rows: seq<PackageAttribute>, pkg: Package, release: nat, eligible: bool)
    requires Get(rows, pkg.id, release, EligibleKey) != Multiple
    ensures CreateEligibleRows(rows, pkg.id, release, eligible).Success?
    ensures IsEligible(CreateEligibleRows(rows, pkg.id, release, eligible).value, pkg, release) == Success(Some(eligible))
  {
    match Get(rows, pkg.id, release, EligibleKey)
    case NotFound =>
      NewBoolRoundTrip(rows, pkg.id, release, EligibleKey, eligible, pkg.eligible);
    case Unique(i) =>
      MatchIndicesIgnoreValue(rows, i, Some(YesNo(eligible)), pkg.id, release, EligibleKey);
  }

  /** As written, create_eligible on a package with no ELIGIBLE row makes is_eligible answer the flag. */
  lemma CreateEligibleAsWrittenCreates(rows: seq<PackageAttribute>, pkg: Package, release: nat, eligible: bool)
    requires Get(rows, pkg.id, release, EligibleKey).NotFound?
    ensures CreateEligibleRowsAsWritten(rows, pkg.id, release, eligible).Success?
    ensures IsEligible(CreateEligibleRowsAsWritten(rows, pkg.id, release, eligible).value, pkg, release) == Success(Some(eligible))
  {
    NewBoolRoundTrip(rows, pkg.id, release, EligibleKey, eligible, pkg.eligible);
  }

  /**
   * As written, re-marking an already recorded package as eligible makes
   * is_eligible answer False: the stored text is "True", not "Y".
   */
  lemma CreateEligibleAsWrittenLosesFlag(rows: seq<PackageAttribute>, pkg: Package, release: nat, eligible: bool)
    requires Get(rows, pkg.id, release, EligibleKey).Unique?
    ensures CreateEligibleRowsAsWritten(rows, pkg.id, release, eligible).Success?
    ensures IsEligible(CreateEligibleRowsAsWritten(rows, pkg.id, release, eligible).value, pkg, release) == Success(Some(false))
  {
    var i := Get(rows, pkg.id, release, EligibleKey).index;
    MatchIndicesIgnoreValue(rows, i, Some(PyStr(eligible)), pkg.id, release, EligibleKey);
  }

  /** The PackageAttribute table, which the create_* class methods append to or update. */
  class AttributeTable {
    var rows: seq<PackageAttribute>

    constructor(initial: seq<PackageAttribute>)
      ensures rows == initial
    {
      rows := initial;
    }

    /** PackageAttribute.create_new_bool: saves a new row holding "Y" for true and "N" for false. */
    method CreateNewBool(package: nat, release: nat, key: string, value: bool) returns (atr: PackageAttribute)
      modifies this
      ensures atr == NewBool(package, release, key, value)
      ensures rows == old(rows) + [atr]
    {
      var boolValue := if value then "Y" else "N";
      atr := PackageAttribute(Some(key), Some(boolValue), package, release);
      rows := rows + [atr];
    }

    /** PackageAttribute.create_blocked. */
    method CreateBlocked(pkg: Package, release: nat, blocked: bool) returns (atr: PackageAttribute)
      modifies this
      ensures atr == NewBool(pkg.id, release, BlockedKey, blocked)
      ensures rows == old(rows) + [atr]
      ensures Get(old(rows), pkg.id, release, BlockedKey).NotFound? ==>
        IsBlocked(rows, pkg, release) == Success(Some(blocked))
      ensures !Get(old(rows), pkg.id, release, BlockedKey).NotFound? ==>
        IsBlocked(rows, pkg, release) == Failure(MultipleObjectsReturned)
    {
      ghost var before := rows;
      atr := CreateNewBool(pkg.id, release, BlockedKey, blocked);
      MatchIndicesAppend(before, atr, pkg.id, release, BlockedKey);
      if Get(before, pkg.id, release, BlockedKey).NotFound? {
        NewBoolRoundTrip(before, pkg.id, release, BlockedKey, blocked, pkg.blocked);
      }
    }

    /** PackageAttribute.create_eligible as written: an existing row gets the raw argument. */
    method CreateEligibleAsWritten(pkg: Package, release: nat, eligible: bool) returns (r: Result<PackageAttribute, AttrError>)
      modifies this
      ensures CreateEligibleRowsAsWritten(old(rows), pkg.id, release, eligible) ==
        (if r.Success? then Success(rows) else Failure(r.error))
      ensures r.Failure? ==> rows == old(rows)
      ensures r.Success? ==>
        Get(rows, pkg.id, release, EligibleKey).Unique? &&
        r.value == rows[Get(rows, pkg.id, release, EligibleKey).index]
    {
      match Get(rows, pkg.id, release, EligibleKey)
      case NotFound =>
        var atr := CreateNewBool(pkg.id, release, EligibleKey, eligible);
        r := Success(atr);
      case Unique(i) =>
        var atr := rows[i].(value := Some(PyStr(eligible)));
        rows := rows[i := atr];
        r := Success(atr);
      case Multiple =>
        r := Failure(MultipleObjectsReturned);
    }

    /** PackageAttribute.create_eligible with the "Y"/"N" encoding on both paths. */
    method CreateEligible(pkg: Package, release: nat, eligible: bool) returns (r: Result<PackageAttribute, AttrError>)
      modifies this
      ensures CreateEligibleRows(old(rows), pkg.id, release, eligible) ==
        (if r.Success? then Success(rows) else Failure(r.error))
      ensures r.Failure? ==> rows == old(rows)
      ensures r.Success? ==>
        Get(rows, pkg.id, release, EligibleKey).Unique? &&
        r.value == rows[Get(rows, pkg.id, release, EligibleKey).index]
      ensures r.Success? ==> IsEligible(rows, pkg, release) == Success(Some(eligible))
    {
      if Get(rows, pkg.id, release, EligibleKey) != Multiple {
        CreateEligibleRoundTrip(rows, pkg, release, eligible);
      }
      match Get(rows, pkg.id, release, EligibleKey)
      case NotFound =>
        var atr := CreateNewBool(pkg.id, release, EligibleKey, eligible);
        r := Success(atr);
      case Unique(i) =>
        var atr := rows[i].(value := Some(YesNo(eligible)));
        rows := rows[i := atr];
        r := Success(atr);
      case Multiple =>
        r := Failure(MultipleObjectsReturned);
    }
  }
}
