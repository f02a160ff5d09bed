/**
 * AnalyzerManager.get_opts of covscanhub/scan/models.py: turns the analyzer
 * list a client asked for ("clang,cov-6.6.1") into the options of the
 * analysis: the PATH addition, the extra build arguments, and whether
 * Coverity is left out.
 */
module Analyzers {
  import opened Wrappers

  /** The characters str.strip() removes from both ends of a byte string. */
  predicate IsSpace(c: char)
  {
    c == ' ' || c == '\t' || c == '\n' || c == '\r' || c == '\U{0b}' || c == '\U{0c}'
  }

  /** The characters of the pattern `[,:;]`. */
  predicate IsSep(c: char)
  {
    c == ',' || c == ':' || c == ';'
  }

  /** The end of the run of whitespace that starts at index `i`. */
  function SpaceEnd(s: string, i: nat): (n: nat)
    requires i <= |s|
    ensures i <= n <= |s|
    ensures forall k :: i <= k < n ==> IsSpace(s[k])
    ensures n == |s| || !IsSpace(s[n])
    decreases |s| - i
  {
    if i < |s| && IsSpace(s[i]) then SpaceEnd(s, i + 1) else i
  }

  /** The start of the run of whitespace that ends at index `hi`, going no lower than `lo`. */
  function SpaceStart(s: string, lo: nat, hi: nat): (n: nat)
    requires lo <= hi <= |s|
    ensures lo <= n <= hi
    ensures forall k :: n <= k < hi ==> IsSpace(s[k])
    ensures n == lo || !IsSpace(s[n - 1])
    decreases hi
  {
    if lo < hi && IsSpace(s[hi - 1]) then SpaceStart(s, lo, hi - 1) else hi
  }

  /** str.strip(): the longest slice of `s` that neither starts nor ends with whitespace. */
  function Strip(s: string): (r: string)
    ensures r == [] || (!IsSpace(r[0]) && !IsSpace(r[|r| - 1]))
    ensures var i := SpaceEnd(s, 0);
      && i + |r| <= |s| && r == s[i..i + |r|]
      && (forall k :: 0 <= k < i ==> IsSpace(s[k]))
      && (forall k :: i + |r| <= k < |s| ==> IsSpace(s[k]))
  {
    var i := SpaceEnd(s, 0);
    s[i..SpaceStart(s, i, |s|)]
  }

  /** re.split('[,:;]', s): the pieces between separators, always at least one. */
  function Split(s: string): (r: seq<string>)
    ensures |r| >= 1
    decreases |s|
  {
    if s == [] then [[]]
    else
      var rest := Split(s[1..]);
      if IsSep(s[0]) then [[]] + rest else [[s[0]] + rest[0]] + rest[1..]
  }

  /** The separators of `s`, in order. */
  function Seps(s: string): (r: string)
    ensures forall i :: 0 <= i < |r| ==> IsSep(r[i])
  {
    if s == [] then [] else (if IsSep(s[0]) then [s[0]] else []) + Seps(s[1..])
  }

  /** Puts the pieces back together with the given separators between them. */
  function Join(pieces: seq<string>, seps: string): string
    requires |pieces| == |seps| + 1
  {
    if seps == [] then pieces[0] else pieces[0] + [seps[0]] + Join(pieces[1..], seps[1..])
  }

  /** There is one piece more than separators, and no piece holds a separator. */
  lemma {:induction false} SplitPieces(s: string)
    ensures |Split(s)| == |Seps(s)| + 1
    ensures forall p, i :: p in Split(s) && 0 <= i < |p| ==> !IsSep(p[i])
    decreases |s|
  {
    if s != [] {
      SplitPieces(s[1..]);
      var rest := Split(s[1..]);
      if !IsSep(s[0]) {
        assert rest[0] in rest;
        forall p, i | p in Split(s) && 0 <= i < |p| ensures !IsSep(p[i]) {
          if p != [s[0]] + rest[0] {
            assert p in rest;
          } else if i > 0 {
            assert p[i] == rest[0][i - 1];
          }
        }
      }
    }
  }

  /** Splitting loses nothing: joining the pieces with the separators found gives the string back. */
  lemma {:induction false} SplitJoin(s: string)
    ensures |Split(s)| == |Seps(s)| + 1
    ensures Join(Split(s), Seps(s)) == s
    decreases |s|
  {
    SplitPieces(s);
    if s != [] {
      SplitJoin(s[1..]);
      var rest := Split(s[1..]);
      var seps := Seps(s[1..]);
      if IsSep(s[0]) {
        assert Split(s) == [[]] + rest;
        assert Seps(s) == [s[0]] + seps;
        assert Split(s)[1..] == rest;
        assert Join(Split(s), Seps(s)) == [] + [s[0]] + Join(rest, seps);
        assert s == [s[0]] + s[1..];
      } else {
        assert Seps(s) == seps;
        JoinConsFirst(rest, seps, s[0]);
        assert s == [s[0]] + s[1..];
      }
    }
  }

  /** Prepending a character to the first piece prepends it to the joined string. */
  lemma {:induction false} JoinConsFirst(pieces: seq<string>, seps: string, c: char)
    requires |pieces| == |seps| + 1
    ensures Join([[c] + pieces[0]] + pieces[1..], seps) == [c] + Join(pieces, seps)
  {
    var p' := [[c] + pieces[0]] + pieces[1..];
    assert p'[0] == [c] + pieces[0];
    if seps != [] {
      assert p'[1..] == pieces[1..];
    }
  }

  /** An Analyzer row. */
  datatype Analyzer = Analyzer(enabled: bool, cliLong: string, buildAppend: Option<string>, path: Option<string>)

  /** The response of get_opts: 'path' and 'args' when present, 'no_coverity' when set. */
  datatype Opts = Opts(path: Option<string>, args: Option<seq<string>>, noCoverity: bool)

  /** An analyzer filter_by_long_arg keeps: enabled, and its long option asked for. */
  predicate Qualifies(a: Analyzer, names: seq<string>)
  {
    a.enabled && a.cliLong in names
  }

  /** filter_by_long_arg: the enabled analyzers whose long option was asked for, in id order. */
  function Selected(analyzers: seq<Analyzer>, names: seq<string>): (r: seq<Analyzer>)
    ensures |r| <= |analyzers|
  {
    if analyzers == [] then []
    else
      var a := analyzers[0];
      (if Qualifies(a, names) then [a] else []) + Selected(analyzers[1..], names)
  }

  /** filter_by_long_arg keeps exactly the enabled analyzers whose long option was asked for. */
  lemma {:induction false} SelectedMembers(analyzers: seq<Analyzer>, names: seq<string>)
    ensures forall a :: a in Selected(analyzers, names) <==> a in analyzers && Qualifies(a, names)
    decreases |analyzers|
  {
    if analyzers != [] {
      SelectedMembers(analyzers[1..], names);
      assert forall b :: b in analyzers <==> b == analyzers[0] || b in analyzers[1..];
    }
  }

  /** The positions, from `from` on, of the analyzers filter_by_long_arg keeps, in increasing order. */
  ghost function QualifyingIndices(analyzers: seq<Analyzer>, names: seq<string>, from: nat): (ix: seq<nat>)
    requires from <= |analyzers|
    ensures forall k :: 0 <= k < |ix| ==> from <= ix[k] < |analyzers| && Qualifies(analyzers[ix[k]], names)
    ensures forall k, l :: 0 <= k < l < |ix| ==> ix[k] < ix[l]
    decreases |analyzers| - from
  {
    if from == |analyzers| then []
    else (if Qualifies(analyzers[from], names) then [from] else []) + QualifyingIndices(analyzers, names, from + 1)
  }

  /** Every qualifying position from `from` on is listed. */
  lemma {:induction false} QualifyingIndicesComplete(analyzers: seq<Analyzer>, names: seq<string>, from: nat)
    requires from <= |analyzers|
    ensures forall i :: from <= i < |analyzers| && Qualifies(analyzers[i], names) ==> i in QualifyingIndices(analyzers, names, from)
    decreases |analyzers| - from
  {
    if from < |analyzers| {
      QualifyingIndicesComplete(analyzers, names, from + 1);
    }
  }

  /**
   * The selection is the rows that qualify, each once, in the order of the
   * table (the queryset is ordered by id): its k-th element is the analyzer
   * at the k-th qualifying position.
   */
  lemma {:induction false} SelectedInOrder(analyzers: seq<Analyzer>, names: seq<string>, from: nat)
    requires from <= |analyzers|
    ensures var ix := QualifyingIndices(analyzers, names, from); var r := Selected(analyzers[from..], names);
      |r| == |ix| && forall k :: 0 <= k < |ix| ==> r[k] == analyzers[ix[k]]
    decreases |analyzers| - from
  {
    if from < |analyzers| {
      SelectedInOrder(analyzers, names, from + 1);
      SelectedFrom(analyzers, names, from);
      var rest := Selected(analyzers[from + 1..], names);
      var ix' := QualifyingIndices(analyzers, names, from + 1);
      if Qualifies(analyzers[from], names) {
        var r := Selected(analyzers[from..], names);
        var ix := QualifyingIndices(analyzers, names, from);
        forall k | 1 <= k < |ix| ensures r[k] == analyzers[ix[k]] {
          assert r[k] == rest[k - 1] && ix[k] == ix'[k - 1];
        }
      }
    }
  }

  /** get_path: the path of the first analyzer whose path is not the empty string (it may be NULL). */
  function FirstPath(sel: seq<Analyzer>): (r: Option<string>)
    ensures r.Some? ==> r.value != ""
    ensures forall k :: 0 <= k < |sel| && sel[k].path != Some("") && (forall j :: 0 <= j < k ==> sel[j].path == Some("")) ==>
      r == sel[k].path
    ensures (forall k :: 0 <= k < |sel| ==> sel[k].path == Some("")) ==> r.None?
  {
    if sel == [] then None
    else if sel[0].path == Some("") then
      var r := FirstPath(sel[1..]);
      assert forall k :: 1 <= k < |sel| ==> sel[k] == sel[1..][k - 1];
      r
    else sel[0].path
  }

  /** One step of filter_by_long_arg, from position `from` on. */
  lemma SelectedFrom(analyzers: seq<Analyzer>, names: seq<string>, from: nat)
    requires from < |analyzers|
    ensures Selected(analyzers[from..], names) ==
      (if Qualifies(analyzers[from], names) then [analyzers[from]] else []) + Selected(analyzers[from + 1..], names)
  {
    assert analyzers[from..][1..] == analyzers[from + 1..];
  }

  /** The non-empty build_append values of the selection. */
  function BuildArgs(sel: seq<Analyzer>): (r: seq<string>)
    ensures |r| <= |sel|
  {
    if sel == [] then []
    else
      var a := sel[0];
      (if HasArg(a) then [a.buildAppend.value] else []) + BuildArgs(sel[1..])
  }

  /** The arguments are exactly the non-empty build_append values of the selection. */
  lemma {:induction false} BuildArgsMembers(sel: seq<Analyzer>)
    ensures forall x :: x in BuildArgs(sel) <==> x != "" && exists a :: a in sel && a.buildAppend == Some(x)
    decreases |sel|
  {
    if sel != [] {
      BuildArgsMembers(sel[1..]);
      assert forall b :: b in sel <==> b == sel[0] || b in sel[1..];
    }
  }

  /** An analyzer whose build_append adds a build argument. */
  predicate HasArg(a: Analyzer)
  {
    a.buildAppend.Some? && a.buildAppend.value != ""
  }

  /** The positions, from `from` on, of the selected analyzers that add a build argument, in increasing order. */
  ghost function ArgIndices(sel: seq<Analyzer>, from: nat): (ix: seq<nat>)
    requires from <= |sel|
    ensures forall k :: 0 <= k < |ix| ==> from <= ix[k] < |sel| && HasArg(sel[ix[k]])
    ensures forall k, l :: 0 <= k < l < |ix| ==> ix[k] < ix[l]
    decreases |sel| - from
  {
    if from == |sel| then []
    else (if HasArg(sel[from]) then [from] else []) + ArgIndices(sel, from + 1)
  }

  /** Every position from `from` on whose analyzer adds an argument is listed. */
  lemma {:induction false} ArgIndicesComplete(sel: seq<Analyzer>, from: nat)
    requires from <= |sel|
    ensures forall i :: from <= i < |sel| && HasArg(sel[i]) ==> i in ArgIndices(sel, from)
    decreases |sel| - from
  {
    if from < |sel| {
      ArgIndicesComplete(sel, from + 1);
    }
  }

  /** One step of the build_append filter, from position `from` on. */
  lemma BuildArgsFrom(sel: seq<Analyzer>, from: nat)
    requires from < |sel|
    ensures BuildArgs(sel[from..]) ==
      (if HasArg(sel[from]) then [sel[from].buildAppend.value] else []) + BuildArgs(sel[from + 1..])
  {
    assert sel[from..][1..] == sel[from + 1..];
  }

  /** The arguments come in the order of the selection, one for each analyzer that adds one. */
  lemma {:induction false} BuildArgsInOrder(sel: seq<Analyzer>, from: nat)
    requires from <= |sel|
    ensures var ix := ArgIndices(sel, from); var r := BuildArgs(sel[from..]);
      |r| == |ix| && forall k :: 0 <= k < |ix| ==> r[k] == sel[ix[k]].buildAppend.value
    decreases |sel| - from
  {
    if from < |sel| {
      BuildArgsInOrder(sel, from + 1);
      BuildArgsFrom(sel, from);
      var rest := BuildArgs(sel[from + 1..]);
      var ix' := ArgIndices(sel, from + 1);
      if HasArg(sel[from]) {
        var r := BuildArgs(sel[from..]);
        var ix := ArgIndices(sel, from);
        forall k | 1 <= k < |ix| ensures r[k] == sel[ix[k]].buildAppend.value {
          assert r[k] == rest[k - 1] && ix[k] == ix'[k - 1];
        }
      }
    }
  }

  predicate StartsWithCov(name: string)
  {
    |name| >= 4 && name[..4] == "cov-"
  }

  /** The options for the already split list of names. */
  function OptsFor(analyzers: seq<Analyzer>, names: seq<string>): (r: Opts)
    ensures r.noCoverity <==> forall n :: n in names ==> !StartsWithCov(n)
    ensures r.path == FirstPath(Selected(analyzers, names))
    ensures r.args.Some? <==> BuildArgs(Selected(analyzers, names)) != []
    ensures r.args.Some? ==> r.args.value == BuildArgs(Selected(analyzers, names))
  {
    var sel := Selected(analyzers, names);
    var args := BuildArgs(sel);
    Opts(FirstPath(sel),
         if args == [] then None else Some(args),
         !exists n :: n in names && StartsWithCov(n))
  }

  /**
   * get_opts(analyzers): the request is stripped and split on `,`, `:` and
   * `;`; Coverity is left out exactly when no piece starts with "cov-".
   */
  function GetOpts(analyzers: seq<Analyzer>, request: string): (r: Opts)
    ensures var names := Split(Strip(request));
      && (r.noCoverity <==> forall n :: n in names ==> !StartsWithCov(n))
      && r.path == FirstPath(Selected(analyzers, names))
      && (r.args.Some? <==> BuildArgs(Selected(analyzers, names)) != [])
      && (r.args.Some? ==> r.args.value == BuildArgs(Selected(analyzers, names)))
  {
    OptsFor(analyzers, Split(Strip(request)))
  }

  /**
   * The options depend only on which names were asked for, not on their
   * order or repetition: removing duplicate names cannot change them.
   */
  lemma {:induction false} OptsDependOnNameSet(analyzers: seq<Analyzer>, names1: seq<string>, names2: seq<string>)
    requires forall n :: n in names1 <==> n in names2
    ensures OptsFor(analyzers, names1) == OptsFor(analyzers, names2)
  {
    SelectedDependsOnNameSet(analyzers, names1, names2);
  }

  lemma {:induction false} SelectedDependsOnNameSet(analyzers: seq<Analyzer>, names1: seq<string>, names2: seq<string>)
    requires forall n :: n in names1 <==> n in names2
    ensures Selected(analyzers, names1) == Selected(analyzers, names2)
    decreases |analyzers|
  {
    if analyzers != [] {
      SelectedDependsOnNameSet(analyzers[1..], names1, names2);
    }
  }
}
