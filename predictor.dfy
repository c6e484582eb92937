/** WekaPredictor: reads the prediction parameters, shapes the test data the way training
    shaped the training data (adding an empty target column when the test data has
    none), predicts each row with the trained model, and renders predictions.csv. The
    model's own predictions enter as parameters. */
module WekaPredictor {
  import opened Wrappers
  import opened JavaText
  import opened Weka
  import opened ColumnSelection
  import opened Contract
  import WekaTrainer

  // ================================================================ target resolution

  /** The name given to the added target column when the target number lies outside the
      test data. */
  const PlaceholderName: string := "target"

  /** How prediction resolves `targetColumn`: a number names its 1-based column when in
      range and the placeholder otherwise; text that is not an int is a column name. */
  function PredictTargetName(names: seq<string>, target: Option<string>): Option<string>
    requires |names| <= IntMax
  {
    if target.None? || target.value == "" then None
    else PredictTargetOf(names, target.value, ParseEntry(target.value))
  }

  /** The resolution once `Integer.parseInt(targetColumn.trim())` has run. */
  function PredictTargetOf(names: seq<string>, raw: string, e: Entry): Option<string>
    requires |names| <= IntMax
    requires e.value.Some? ==> InIntRange(e.value.value)
  {
    match e.value
    case None => Some(raw)
    case Some(v) =>
      var idx := Dec32(v);
      if 0 <= idx < |names| then Some(names[idx]) else Some(PlaceholderName)
  }

  /** A given target always resolves to a name: itself when it is not an int, the column
      it denotes, or the placeholder when it denotes none. */
  lemma PredictTargetOfSpec(names: seq<string>, raw: string, e: Entry)
    requires |names| <= IntMax
    requires e.value.Some? ==> InIntRange(e.value.value)
    ensures Malformed(e) ==> PredictTargetOf(names, raw, e) == Some(raw)
    ensures forall k :: 0 <= k < |names| && Denotes(e, k) ==> PredictTargetOf(names, raw, e) == Some(names[k])
    ensures (!Malformed(e) && forall k :: 0 <= k < |names| ==> !Denotes(e, k)) ==>
      PredictTargetOf(names, raw, e) == Some(PlaceholderName)
  {
    if e.value.Some? && e.value.value != IntMin {
      var idx := e.value.value - 1;
      assert Dec32(e.value.value) == idx;
      if 0 <= idx < |names| {
        assert Denotes(e, idx);
      }
    }
  }

  /** Prediction and training read a target the same way, except that a number naming no
      column gives training no target and prediction the placeholder. */
  lemma TargetResolutionsAgree(names: seq<string>, target: Option<string>)
    requires |names| <= IntMax
    ensures var p, t := PredictTargetName(names, target), WekaTrainer.TrainTargetName(names, target);
      && (t.Some? ==> p == t)
      && (t.None? && target.Some? && target.value != "" ==> p == Some(PlaceholderName))
      && (target.None? || target.value == "" ==> p.None? && t.None?)
  {
    if target.Some? && target.value != "" {
      var e := ParseEntry(target.value);
      PredictTargetOfSpec(names, target.value, e);
      WekaTrainer.TrainTargetOfSpec(names, target.value, e);
    }
  }

  // ================================================================ selectColumnsAndEnsureTarget

  /** The names prediction keeps: those the list selects, plus the target's name when
      the list left it out, whether or not the test data has such a column. */
  function PredictColumnNames(chosen: seq<string>, cls: Option<string>): seq<string>
  {
    if cls.Some? && cls.value !in chosen then chosen + [cls.value] else chosen
  }

  /** A numeric column called name, missing in every row, appended as the last column. */
  function WithPlaceholder(d: Instances, name: string): (r: Instances)
    requires Valid(d) && d.classIndex == -1
    requires name !in Names(d.attrs) && |d.attrs| < IntMax
    ensures Valid(r) && r.classIndex == -1
  {
    var r := Instances(d.attrs + [Attribute(name, Numeric)],
                       seq(|d.rows|, k requires 0 <= k < |d.rows| => d.rows[k] + [Missing]), -1);
    assert Distinct(Names(r.attrs)) by {
      forall i, j | 0 <= i < j < |r.attrs| ensures Names(r.attrs)[i] != Names(r.attrs)[j] {
        if j == |d.attrs| {
          assert Names(r.attrs)[i] == Names(d.attrs)[i];
        } else {
          assert Names(r.attrs)[i] == Names(d.attrs)[i] && Names(r.attrs)[j] == Names(d.attrs)[j];
        }
      }
    }
    r
  }

  /** The filtered test data, with the placeholder appended when the target's column is
      not among the kept ones. */
  function Padded(d: Instances, columns: seq<string>, cls: Option<string>): (r: Instances)
    requires Valid(d) && d.classIndex == -1 && |d.attrs| < IntMax
    ensures Valid(r) && r.classIndex == -1 && |r.rows| == |d.rows|
  {
    var keep := IndicesNamed(Names(d.attrs), columns);
    KeepColumnsKeeps(d, keep);
    DistinctBound(keep, |d.attrs|);
    var f := KeepColumns(d, keep);
    if cls.Some? && cls.value !in Names(f.attrs) then WithPlaceholder(f, cls.value) else f
  }

  /** `selectColumnsAndEnsureTarget` as a function of the freshly loaded test data. */
  function EnsureTarget(d: Instances, basic: Option<string>, target: Option<string>): (r: Result<Instances>)
    requires Valid(d) && d.classIndex == -1 && |d.attrs| < IntMax
    ensures r.Ok? ==> Valid(r.value) && |r.value.rows| == |d.rows|
  {
    var names := Names(d.attrs);
    var cls := PredictTargetName(names, target);
    match SelectedNames(names, basic)
    case Err(e) => Err(e)
    case Ok(chosen) => Ok(WithClassIndex(Padded(d, PredictColumnNames(chosen, cls), cls), cls))
  }

  /** Loop form of the source: resolve the target, collect the names, add the target,
      filter, append the placeholder, set the class. */
  method SelectColumnsAndEnsureTarget(d: Instances, basic: Option<string>, target: Option<string>)
    returns (r: Result<Instances>)
    requires Valid(d) && d.classIndex == -1 && |d.attrs| < IntMax
    ensures r == EnsureTarget(d, basic, target)
  {
    var names := Names(d.attrs);
    var cls := PredictTargetName(names, target);
    var chosen := CollectColumnNames(names, basic);
    if chosen.Err? {
      return Err(chosen.error);
    }
    var columns := chosen.value;
    if cls.Some? && cls.value !in columns {
      columns := columns + [cls.value];
    }
    var padded := PadColumns(d, columns, cls);
    var data := SetClass(padded, cls);
    r := Ok(data);
  }

  /** Filtering, then the placeholder column. */
  method PadColumns(d: Instances, columns: seq<string>, cls: Option<string>) returns (data: Instances)
    requires Valid(d) && d.classIndex == -1 && |d.attrs| < IntMax
    ensures data == Padded(d, columns, cls)
  {
    var names := Names(d.attrs);
    var keep := IndicesToKeep(names, columns);
    KeepColumnsKeeps(d, keep);
    DistinctBound(keep, |d.attrs|);
    data := d;
    if |keep| < |d.attrs| {
      data := Project(d, keep);
    }
    if cls.Some? && IndexOf(Names(data.attrs), cls.value).None? {
      data := AddPlaceholder(data, cls.value);
    }
  }

  /** `insertAttributeAt` at the end, then `setMissing` on every row. */
  method AddPlaceholder(d: Instances, name: string) returns (r: Instances)
    requires Valid(d) && d.classIndex == -1
    requires name !in Names(d.attrs) && |d.attrs| < IntMax
    ensures r == WithPlaceholder(d, name)
  {
    var rows := d.rows;
    var i := 0;
    while i < |rows|
      invariant 0 <= i <= |rows| && |rows| == |d.rows|
      invariant forall k :: 0 <= k < i ==> rows[k] == d.rows[k] + [Missing]
      invariant forall k :: i <= k < |rows| ==> rows[k] == d.rows[k]
    {
      rows := rows[i := rows[i] + [Missing]];
      i := i + 1;
    }
    r := Instances(d.attrs + [Attribute(name, Numeric)], rows, -1);
  }

  /** `setClassIndex` to the target's column, or to the last one. */
  method SetClass(d: Instances, cls: Option<string>) returns (r: Instances)
    requires Valid(d) && d.classIndex == -1
    ensures r == WithClassIndex(d, cls)
  {
    r := d;
    if cls.Some? {
      var ci := IndexOf(Names(d.attrs), cls.value);
      if ci.Some? {
        r := d.(classIndex := ci.value);
      }
    }
    if r.classIndex < 0 && |d.attrs| > 0 {
      r := d.(classIndex := |d.attrs| - 1);
    }
  }

  /** r holds the columns of d at the positions keep, in the dataset's order, with every
      row restricted to them, followed by a numeric placeholder column that is missing in
      every row when pad names one. */
  predicate KeptThenPadded(d: Instances, r: Instances, keep: seq<nat>, pad: Option<string>)
  {
    && Valid(d)
    && StrictlyIncreasing(keep)
    && (forall i :: 0 <= i < |keep| ==> keep[i] < |d.attrs|)
    && |r.attrs| == |keep| + (if pad.Some? then 1 else 0)
    && |r.rows| == |d.rows|
    && (forall k :: 0 <= k < |d.rows| ==> |r.rows[k]| == |r.attrs|)
    && (forall i :: 0 <= i < |keep| ==> r.attrs[i] == d.attrs[keep[i]])
    && (forall k, i :: 0 <= k < |d.rows| && 0 <= i < |keep| ==> r.rows[k][i] == d.rows[k][keep[i]])
    && (pad.Some? ==>
          && r.attrs[|keep|] == Attribute(pad.value, Numeric)
          && forall k :: 0 <= k < |d.rows| ==> r.rows[k][|keep|] == Missing)
  }

  /** The placeholder is added exactly when the target names no column of the test data. */
  function PadName(d: Instances, cls: Option<string>): Option<string>
  {
    if cls.Some? && cls.value !in Names(d.attrs) then cls else None
  }

  lemma PaddedKeeps(d: Instances, columns: seq<string>, cls: Option<string>)
    requires Valid(d) && d.classIndex == -1 && |d.attrs| < IntMax
    requires cls.Some? ==> cls.value in columns
    ensures KeptThenPadded(d, Padded(d, columns, cls), IndicesNamed(Names(d.attrs), columns), PadName(d, cls))
  {
    var names := Names(d.attrs);
    var keep := IndicesNamed(names, columns);
    KeepColumnsKeeps(d, keep);
    var f := KeepColumns(d, keep);
    if cls.Some? && cls.value !in names {
      forall i | 0 <= i < |f.attrs| ensures Names(f.attrs)[i] != cls.value {
        assert Names(f.attrs)[i] == names[keep[i]];
      }
      DistinctBound(keep, |d.attrs|);
      PlaceholderKeeps(d, f, keep, cls.value);
    } else {
      if cls.Some? {
        var k :| 0 <= k < |names| && names[k] == cls.value;
        var i :| 0 <= i < |keep| && keep[i] == k;
        assert Names(f.attrs)[i] == cls.value;
      }
      assert Padded(d, columns, cls) == f;
    }
  }

  /** Appending the placeholder to kept columns keeps them and adds the pad. */
  lemma PlaceholderKeeps(d: Instances, f: Instances, keep: seq<nat>, name: string)
    requires KeptInOrder(d, f, keep) && Valid(f) && f.classIndex == -1
    requires name !in Names(f.attrs) && |f.attrs| < IntMax
    ensures KeptThenPadded(d, WithPlaceholder(f, name), keep, Some(name))
  {
    var r := WithPlaceholder(f, name);
    forall k, i | 0 <= k < |d.rows| && 0 <= i < |keep| ensures r.rows[k][i] == d.rows[k][keep[i]] {
      assert r.rows[k] == f.rows[k] + [Missing];
    }
  }

  /** Selection fails exactly when the list is given and one of its entries is not an
      int; the target never makes it fail. */
  lemma EnsureTargetFails(d: Instances, basic: Option<string>, target: Option<string>)
    requires Valid(d) && d.classIndex == -1 && |d.attrs| < IntMax
    ensures EnsureTarget(d, basic, target).Err? <==>
      basic.Some? && basic.value != "" &&
      (var es := Entries(Split(basic.value)); exists j :: 0 <= j < |es| && Malformed(es[j]))
  {
    SelectedNamesSpec(Names(d.attrs), basic);
  }

  /** The kept columns are, in the test data's own order, exactly those the list selects
      plus the target's, and every row is kept; a target the test data lacks is appended
      as an empty numeric column. */
  lemma EnsureTargetColumns(d: Instances, basic: Option<string>, target: Option<string>)
    requires Valid(d) && d.classIndex == -1 && |d.attrs| < IntMax
    ensures var r, cls := EnsureTarget(d, basic, target), PredictTargetName(Names(d.attrs), target);
      r.Ok? ==> exists keep :: (KeptThenPadded(d, r.value, keep, PadName(d, cls)) &&
        forall k :: 0 <= k < |d.attrs| ==>
          (k in keep <==> ListSelects(basic, k) || cls == Some(d.attrs[k].name)))
  {
    var names := Names(d.attrs);
    var cls := PredictTargetName(names, target);
    var r := EnsureTarget(d, basic, target);
    if r.Ok? {
      var chosen := SelectedNames(names, basic).value;
      var columns := PredictColumnNames(chosen, cls);
      var keep := IndicesNamed(names, columns);
      PaddedKeeps(d, columns, cls);
      assert r.value == WithClassIndex(Padded(d, columns, cls), cls);
      assert KeptThenPadded(d, r.value, keep, PadName(d, cls));
      forall k | 0 <= k < |d.attrs|
        ensures k in keep <==> ListSelects(basic, k) || cls == Some(d.attrs[k].name)
      {
        assert names[k] == d.attrs[k].name;
        ChosenSelects(names, basic, k);
      }
    }
  }

  /** A column's name is among the selected names exactly when the list selects it. */
  lemma ChosenSelects(names: seq<string>, basic: Option<string>, k: nat)
    requires |names| <= IntMax && Distinct(names) && k < |names|
    requires SelectedNames(names, basic).Ok?
    ensures names[k] in SelectedNames(names, basic).value <==> ListSelects(basic, k)
  {
    SelectedNamesSpec(names, basic);
  }

  /** A given target is always the class: its own column when the test data has it, else
      the placeholder, which is the last column. Without a target the class is the last
      column. */
  lemma EnsureTargetClass(d: Instances, basic: Option<string>, target: Option<string>)
    requires Valid(d) && d.classIndex == -1 && |d.attrs| < IntMax
    ensures var r, cls := EnsureTarget(d, basic, target), PredictTargetName(Names(d.attrs), target);
      && (r.Ok? && cls.Some? ==>
            0 <= r.value.classIndex && r.value.attrs[r.value.classIndex].name == cls.value)
      && (r.Ok? && cls.Some? && cls.value !in Names(d.attrs) ==>
            r.value.classIndex == |r.value.attrs| - 1 &&
            r.value.attrs[r.value.classIndex] == Attribute(cls.value, Numeric))
      && (r.Ok? && cls.None? ==> r.value.classIndex == |r.value.attrs| - 1)
  {
    var names := Names(d.attrs);
    var cls := PredictTargetName(names, target);
    var r := EnsureTarget(d, basic, target);
    if r.Ok? {
      var chosen := SelectedNames(names, basic).value;
      var columns := PredictColumnNames(chosen, cls);
      var p := Padded(d, columns, cls);
      PaddedKeeps(d, columns, cls);
      ClassOfPadded(d, p, IndicesNamed(names, columns), cls);
    }
  }

  /** Setting the class on the padded data finds the target's column among the kept
      ones, or the placeholder. */
  lemma ClassOfPadded(d: Instances, p: Instances, keep: seq<nat>, cls: Option<string>)
    requires Valid(p) && p.classIndex == -1
    requires KeptThenPadded(d, p, keep, PadName(d, cls))
    requires forall k :: 0 <= k < |d.attrs| && cls == Some(d.attrs[k].name) ==> k in keep
    ensures var r := WithClassIndex(p, cls);
      && (cls.Some? ==> 0 <= r.classIndex && r.attrs[r.classIndex].name == cls.value)
      && (cls.Some? && cls.value !in Names(d.attrs) ==>
            r.classIndex == |r.attrs| - 1 && r.attrs[r.classIndex] == Attribute(cls.value, Numeric))
      && (cls.None? ==> r.classIndex == |r.attrs| - 1)
  {
    if cls.Some? {
      var names := Names(d.attrs);
      if cls.value in names {
        var k :| 0 <= k < |names| && names[k] == cls.value;
        assert k in keep;
        var i :| 0 <= i < |keep| && keep[i] == k;
        assert Names(p.attrs)[i] == cls.value;
      } else {
        assert Names(p.attrs)[|keep|] == cls.value;
        var r := WithClassIndex(p, cls);
        assert Names(p.attrs)[r.classIndex] == cls.value;
      }
    }
  }

  // ================================================================ selectColumns (clustering)

  /** `selectColumns` of the predictor: the in-range positions the list names, in list
      order; when there are none the data is returned as it is, otherwise the Remove
      filter keeps those columns in the order listed, and fails when a column is listed
      twice, since the filtered header would then repeat an attribute name. */
  function ClusterColumns(d: Instances, basic: string): (r: Result<Instances>)
    requires Valid(d) && d.classIndex == -1
    ensures r.Ok? ==> Valid(r.value) && r.value.classIndex == -1 && |r.value.rows| == |d.rows|
  {
    ClusterOfEntries(d, Entries(Split(basic)))
  }

  function ClusterOfEntries(d: Instances, es: seq<Entry>): (r: Result<Instances>)
    requires Valid(d) && d.classIndex == -1
    ensures r.Ok? ==> Valid(r.value) && r.value.classIndex == -1 && |r.value.rows| == |d.rows|
  {
    match SelectedIndices(|d.attrs|, es)
    case Err(e) => Err(e)
    case Ok(ks) =>
      SelectedIndicesMembers(|d.attrs|, es);
      if ks == [] then Ok(d)
      else if !NoRepeats(ks) then Err(NonUniqueAttributeNames)
      else Ok(Project(d, ks))
  }

  /** Step 3b for clustering: select only when a list is given; the class stays unset. */
  function ClusterData(d: Instances, basic: Option<string>): (r: Result<Instances>)
    requires Valid(d) && d.classIndex == -1
    ensures r.Ok? ==> Valid(r.value) && r.value.classIndex == -1 && |r.value.rows| == |d.rows|
  {
    if basic.None? || basic.value == "" then Ok(d) else ClusterColumns(d, basic.value)
  }

  method SelectClusterColumns(d: Instances, basic: string) returns (r: Result<Instances>)
    requires Valid(d) && d.classIndex == -1
    ensures r == ClusterColumns(d, basic)
  {
    var es := Entries(Split(basic));
    assert IntEntries(es);
    var ks :- CollectIndices(|d.attrs|, es);
    if ks == [] {
      return Ok(d);
    }
    if !NoRepeats(ks) {
      return Err(NonUniqueAttributeNames);
    }
    SelectedIndicesMembers(|d.attrs|, es);
    r := Ok(Project(d, ks));
  }

  /** Loop of the source: the in-range 0-based positions in list order, stopping at the
      first entry that is not an int. */
  method CollectIndices(n: nat, es: seq<Entry>) returns (r: Result<seq<nat>>)
    requires n <= IntMax && IntEntries(es)
    ensures r == SelectedIndices(n, es)
  {
    var ks: seq<nat> := [];
    var i := 0;
    while i < |es|
      invariant 0 <= i <= |es|
      invariant SelectedIndices(n, es[..i]) == Ok(ks)
    {
      var e := es[i];
      if e.value.None? {
        SelectedIndicesStop(n, es, i, ks);
        return Err(NumberFormat(e.text));
      }
      assert InIntRange(e.value.value);
      var idx := Dec32(e.value.value);
      SelectedIndicesNext(n, es, i, ks);
      if 0 <= idx < n {
        ks := ks + [idx];
      }
      i := i + 1;
    }
    assert es[..|es|] == es;
    return Ok(ks);
  }

  /** Some entry names a column of a dataset with n columns. */
  predicate NamesSomeColumn(es: seq<Entry>, n: nat)
  {
    exists j, k :: 0 <= j < |es| && 0 <= k < n && Denotes(es[j], k)
  }

  /** Clustering selection fails on an entry that is not an int, with the first such
      entry, and otherwise exactly when two entries name the same column; a list naming
      no column leaves the data as it is; otherwise the kept columns are exactly the
      named ones, each once, in the order the list names them, with every row.
      ClusterColumns(d, basic) is this function of the entries of the list. */
  lemma ClusterOfEntriesSpec(d: Instances, es: seq<Entry>)
    requires Valid(d) && d.classIndex == -1
    ensures var r := ClusterOfEntries(d, es);
      && ((exists j :: 0 <= j < |es| && Malformed(es[j])) ==>
            exists j :: FirstMalformed(es, j) && r == Err(NumberFormat(es[j].text)))
      && (!(exists j :: 0 <= j < |es| && Malformed(es[j])) ==>
            (r.Err? <==> Repeated(es, |d.attrs|)) && (r.Err? ==> r.error == NonUniqueAttributeNames))
      && (r.Ok? && !NamesSomeColumn(es, |d.attrs|) ==> r.value == d)
      && (r.Ok? && NamesSomeColumn(es, |d.attrs|) ==>
            exists keep :: (ColumnsAt(d, r.value, keep) && NoRepeats(keep) && InListOrder(es, keep) &&
              forall k :: 0 <= k < |d.attrs| ==> (k in keep <==> exists j :: 0 <= j < |es| && Denotes(es[j], k))))
  {
    var n := |d.attrs|;
    SelectedIndicesFails(n, es);
    var r := ClusterOfEntries(d, es);
    if SelectedIndices(n, es).Ok? {
      SelectedIndicesMembers(n, es);
      SelectedIndicesRepeats(n, es);
      var ks := SelectedIndices(n, es).value;
      if ks != [] {
        assert ks[0] in ks;
        assert NamesSomeColumn(es, n);
      }
      if r.Ok? && NamesSomeColumn(es, n) {
        var j, k :| 0 <= j < |es| && 0 <= k < n && Denotes(es[j], k);
        assert k in ks;
        SelectedIndicesOrder(n, es);
        assert ColumnsAt(d, r.value, ks);
      }
    }
  }

  /** Three numeric columns a, b, c and no rows. */
  function AbcData(): (d: Instances)
    ensures Valid(d) && d.classIndex == -1 && Names(d.attrs) == ["a", "b", "c"]
  {
    Instances([Attribute("a", Numeric), Attribute("b", Numeric), Attribute("c", Numeric)], [], -1)
  }

  /** On columns a, b, c the entries of "3,1" give the clusterer c and then a. */
  lemma ClusterOrderExample()
    ensures ClusterOfEntries(AbcData(), [Entry("3", Some(3)), Entry("1", Some(1))])
      == Ok(Instances([AbcData().attrs[2], AbcData().attrs[0]], [], -1))
  {
    var d := AbcData();
    var es := [Entry("3", Some(3)), Entry("1", Some(1))];
    TwoEntries(es, 2, 0);
    var ks := SelectedIndices(3, es).value;
    assert ks == [2, 0] && NoRepeats(ks);
    var r := Project(d, ks);
    assert ClusterOfEntries(d, es) == Ok(r);
    assert r.attrs == [d.attrs[2], d.attrs[0]] && r.rows == [];
  }

  /** The entries of "1,1" name column a twice, and the filter refuses them. */
  lemma ClusterRepeatExample()
    ensures ClusterOfEntries(AbcData(), [Entry("1", Some(1)), Entry("1", Some(1))]) == Err(NonUniqueAttributeNames)
  {
    var es := [Entry("1", Some(1)), Entry("1", Some(1))];
    TwoEntries(es, 0, 0);
    var ks := SelectedIndices(3, es).value;
    assert ks[0] == ks[1];
  }

  /** Training on the same entries chooses c and then a ... */
  lemma TrainChoiceExample()
    ensures NamesOfEntries(["a", "b", "c"], [Entry("3", Some(3)), Entry("1", Some(1))]) == Ok(["c", "a"])
  {
    TwoEntries([Entry("3", Some(3)), Entry("1", Some(1))], 2, 0);
    assert NamesAt(["a", "b", "c"], [2, 0]) == ["c", "a"];
  }

  /** ... but keeps a and then c, the dataset's order. */
  lemma TrainOrderExample()
    ensures WekaTrainer.Narrow(AbcData(), ["c", "a"], None).attrs == [AbcData().attrs[0], AbcData().attrs[2]]
  {
    IndicesNamedExample();
    var d := AbcData();
    var keep: seq<nat> := [0, 2];
    assert KeepColumns(d, keep) == Project(d, keep);
    assert Project(d, keep).attrs == [d.attrs[0], d.attrs[2]];
  }

  // ================================================================ predictClassification / predictRegression

  /** `if (data.classIndex() < 0)`: the column named by the raw target text, else the
      last column (-1 again when there is none, which classAttribute() then refuses). */
  function EnsureClass(d: Instances, target: Option<string>): (r: Instances)
    requires Valid(d)
    ensures Valid(r) && r.attrs == d.attrs && r.rows == d.rows
    ensures d.classIndex >= 0 ==> r == d
    ensures d.classIndex < 0 && target.Some? && target.value in Names(d.attrs) ==>
      0 <= r.classIndex && r.attrs[r.classIndex].name == target.value
    ensures d.classIndex < 0 && !(target.Some? && target.value in Names(d.attrs)) ==>
      r.classIndex == |d.attrs| - 1
  {
    if d.classIndex >= 0 then d
    else
      var ci := if target.Some? then IndexOf(Names(d.attrs), target.value) else None;
      if ci.Some? then d.(classIndex := ci.value) else d.(classIndex := |d.attrs| - 1)
  }

  /** The attribute whose values name the predicted classes: the training header's class
      when header.ser was found and has one, else the test data's class after
      NumericToNominal (whose values toNominal gives). */
  function LabelSource(header: Option<Instances>, d: Instances, toNominal: seq<Cell> -> seq<string>): Attribute
    requires Valid(d) && 0 <= d.classIndex
    requires header.Some? ==> Valid(header.value)
  {
    if header.Some? && header.value.classIndex >= 0 then header.value.attrs[header.value.classIndex]
    else
      var a := d.attrs[d.classIndex];
      Attribute(a.name, Nominal(WekaTrainer.ClassValues(d, toNominal)))
  }

  const FallbackPrefix: string := "Class_"

  /** The label for the class index k the classifier predicted: the label source's value
      k when it is nominal with values and k is below their number (a negative k makes
      the lookup throw), else "Class_" followed by k. */
  function PredictedLabel(source: Attribute, k: int): Result<string>
  {
    match source.kind
    case Nominal(vs) =>
      if |vs| > 0 && k < |vs| then (if k < 0 then Err(IndexOutOfBounds(k)) else Ok(vs[k]))
      else Ok(FallbackPrefix + IntToString(k))
    case Numeric => Ok(FallbackPrefix + IntToString(k))
  }

  /** Reads a fallback label back into the class index it stands for. */
  function FallbackIndex(text: string): Option<int>
  {
    if |text| >= |FallbackPrefix| && text[..|FallbackPrefix|] == FallbackPrefix
    then ParseInt(text[|FallbackPrefix|..])
    else None
  }

  /** A prediction is one of the label source's values, or a fallback label that reads
      back as the predicted index; it fails only for a negative index into a non-empty
      value list. */
  lemma PredictedLabelSpec(source: Attribute, k: int)
    requires InIntRange(k)
    ensures var r := PredictedLabel(source, k);
      && (r.Err? <==> source.kind.Nominal? && |source.kind.values| > 0 && k < 0)
      && (r.Ok? && source.kind.Nominal? && 0 <= k < |source.kind.values| ==> r.value == source.kind.values[k])
      && (r.Ok? && !(source.kind.Nominal? && 0 <= k < |source.kind.values|) ==> FallbackIndex(r.value) == Some(k))
  {
    var text := FallbackPrefix + IntToString(k);
    assert text[..|FallbackPrefix|] == FallbackPrefix;
    assert text[|FallbackPrefix|..] == IntToString(k);
    ParseIntToString(k);
  }

  /** Loop of the source over the test rows: one label per row, in row order; the first
      failing lookup ends the run. */
  method PredictLabels(source: Attribute, ks: seq<int>) returns (r: Result<seq<string>>)
    ensures r.Ok? <==> forall i :: 0 <= i < |ks| ==> PredictedLabel(source, ks[i]).Ok?
    ensures r.Ok? ==> |r.value| == |ks| && forall i :: 0 <= i < |ks| ==> PredictedLabel(source, ks[i]) == Ok(r.value[i])
    ensures r.Err? ==> exists j :: (0 <= j < |ks| && PredictedLabel(source, ks[j]) == Err(r.error) &&
      forall i :: 0 <= i < j ==> PredictedLabel(source, ks[i]).Ok?)
  {
    var labels := [];
    var i := 0;
    while i < |ks|
      invariant 0 <= i <= |ks| && |labels| == i
      invariant forall j :: 0 <= j < i ==> PredictedLabel(source, ks[j]) == Ok(labels[j])
    {
      var pred := PredictedLabel(source, ks[i]);
      if pred.Err? {
        return Err(pred.error);
      }
      labels := labels + [pred.value];
      i := i + 1;
    }
    return Ok(labels);
  }

  // ================================================================ predictClustering

  const ClusterPrefix: string := "Cluster_"

  /** The prediction for a row placed in cluster c, and the distribution key of cluster c. */
  function ClusterLabel(c: int): string
  {
    ClusterPrefix + IntToString(c)
  }

  /** How many of the assignments are c. */
  function Count(cs: seq<int>, c: int): (r: nat)
    ensures r <= |cs|
  {
    if cs == [] then 0 else Count(cs[..|cs| - 1], c) + (if cs[|cs| - 1] == c then 1 else 0)
  }

  /** `new int[k]` and `clusterCounts[cluster]++` per row: a negative cluster count
      cannot size the array, and a cluster outside [0, k) is an index out of bounds at the
      first row that has one. */
  method CountClusters(clusters: seq<int>, k: int) returns (r: Result<seq<nat>>)
    ensures k < 0 ==> r == Err(NegativeArraySize(k))
    ensures k >= 0 ==> (r.Ok? <==> forall i :: 0 <= i < |clusters| ==> 0 <= clusters[i] < k)
    ensures k >= 0 && r.Err? ==> exists j :: (0 <= j < |clusters| && r.error == IndexOutOfBounds(clusters[j]) &&
      !(0 <= clusters[j] < k) && forall i :: 0 <= i < j ==> 0 <= clusters[i] < k)
    ensures r.Ok? ==> |r.value| == k && forall c :: 0 <= c < k ==> r.value[c] == Count(clusters, c)
  {
    if k < 0 {
      return Err(NegativeArraySize(k));
    }
    var counts := new nat[k](_ => 0);
    var i := 0;
    while i < |clusters|
      invariant 0 <= i <= |clusters|
      invariant forall j :: 0 <= j < i ==> 0 <= clusters[j] < k
      invariant forall c :: 0 <= c < k ==> counts[c] == Count(clusters[..i], c)
    {
      var c := clusters[i];
      if c < 0 || c >= k {
        return Err(IndexOutOfBounds(c));
      }
      assert clusters[..i + 1][..i] == clusters[..i];
      counts[c] := counts[c] + 1;
      i := i + 1;
    }
    assert clusters[..|clusters|] == clusters;
    return Ok(counts[..]);
  }

  function Sum(xs: seq<nat>): nat
  {
    if xs == [] then 0 else Sum(xs[..|xs| - 1]) + xs[|xs| - 1]
  }

  /** The counts of clusters [0, k) for assignments that all lie in [0, k). */
  function Distribution(clusters: seq<int>, k: nat): (r: seq<nat>)
    ensures |r| == k && forall c :: 0 <= c < k ==> r[c] == Count(clusters, c)
  {
    seq(k, c requires 0 <= c < k => Count(clusters, c))
  }

  lemma {:induction false} DistributionSnoc(clusters: seq<int>, x: int, k: nat)
    requires 0 <= x < k
    ensures Sum(Distribution(clusters + [x], k)) == Sum(Distribution(clusters, k)) + 1
    decreases k
  {
    var a, b := Distribution(clusters + [x], k), Distribution(clusters, k);
    assert (clusters + [x])[..|clusters|] == clusters;
    if k - 1 == x {
      if k > 1 {
        assert a[..k - 1] == Distribution(clusters, k - 1) by {
          forall c | 0 <= c < k - 1 ensures a[c] == Count(clusters, c) { }
        }
      } else {
        assert a[..k - 1] == [] == b[..k - 1];
      }
      assert a[..k - 1] == b[..k - 1];
    } else {
      DistributionSnoc(clusters, x, k - 1);
      assert a[..k - 1] == Distribution(clusters + [x], k - 1);
      assert b[..k - 1] == Distribution(clusters, k - 1);
    }
  }

  /** Every row lands in exactly one cluster: the distribution's counts add up to the
      number of rows. */
  lemma {:induction false} DistributionSum(clusters: seq<int>, k: nat)
    requires forall i :: 0 <= i < |clusters| ==> 0 <= clusters[i] < k
    ensures Sum(Distribution(clusters, k)) == |clusters|
    decreases |clusters|
  {
    if clusters == [] {
      ZeroSum(Distribution(clusters, k));
    } else {
      var init := clusters[..|clusters| - 1];
      DistributionSum(init, k);
      DistributionSnoc(init, clusters[|clusters| - 1], k);
      assert init + [clusters[|clusters| - 1]] == clusters;
    }
  }

  lemma {:induction false} ZeroSum(xs: seq<nat>)
    requires forall i :: 0 <= i < |xs| ==> xs[i] == 0
    ensures Sum(xs) == 0
    decreases |xs|
  {
    if xs != [] {
      ZeroSum(xs[..|xs| - 1]);
    }
  }

  // ================================================================ the three prediction paths

  /** The model's answers for the prepared test rows, in row order, and the conversions
      that Weka and the JDK perform: `(int) classifyInstance(row)` of a classifier,
      `String.valueOf(classifyInstance(row))` of a regressor, `clusterInstance(row)` and
      `numberOfClusters()` of a clusterer, the value list NumericToNominal derives from a
      numeric class column, and Double.parseDouble as Java prints the result (None when
      it throws). */
  datatype ModelRun = ModelRun(
    classIndices: seq<int>,
    values: seq<string>,
    clusters: seq<int>,
    numClusters: int,
    toNominal: seq<Cell> -> seq<string>,
    parseDouble: string -> Option<string>)

  /** The model answered once for each of n rows; a regressor's answer is the text
      String.valueOf gives a double, which Double.parseDouble always reads back. */
  predicate Answers(m: ModelRun, n: nat)
  {
    && |m.classIndices| == n && |m.values| == n && |m.clusters| == n
    && (forall i :: 0 <= i < n ==> InIntRange(m.classIndices[i]))
    && (forall i :: 0 <= i < n ==> m.parseDouble(m.values[i]).Some?)
  }

  /** The prediction for row k of a classifier or regressor, whose class is set. */
  function SupervisedPrediction(kind: AlgorithmType, header: Option<Instances>, d: Instances, m: ModelRun, k: nat): Result<string>
    requires Valid(d) && 0 <= d.classIndex && k < |m.classIndices| && k < |m.values|
    requires header.Some? ==> Valid(header.value)
  {
    if kind == Classification then PredictedLabel(LabelSource(header, d, m.toNominal), m.classIndices[k])
    else Ok(m.values[k])
  }

  /** `predictClassification` and `predictRegression`: make sure a class is set, then one
      prediction per row. The class index set here stays on the caller's test data, which
      is what is written out. */
  method PredictSupervised(kind: AlgorithmType, header: Option<Instances>, data: Instances, target: Option<string>, m: ModelRun)
    returns (r: Result<(Instances, seq<string>)>)
    requires kind != Clustering
    requires Valid(data) && Answers(m, |data.rows|)
    requires header.Some? ==> Valid(header.value)
    ensures var e := EnsureClass(data, target);
      && (e.classIndex < 0 ==> r == Err(UnassignedClass))
      && (e.classIndex >= 0 ==>
            (r.Ok? <==> forall k :: 0 <= k < |data.rows| ==> SupervisedPrediction(kind, header, e, m, k).Ok?))
      && (r.Ok? ==> (0 <= e.classIndex && r.value.0 == e && |r.value.1| == |data.rows| &&
            forall k :: 0 <= k < |data.rows| ==> SupervisedPrediction(kind, header, e, m, k) == Ok(r.value.1[k])))
      && (e.classIndex >= 0 && r.Err? ==>
            exists j :: (0 <= j < |data.rows| && SupervisedPrediction(kind, header, e, m, j) == Err(r.error) &&
              forall k :: 0 <= k < j ==> SupervisedPrediction(kind, header, e, m, k).Ok?))
  {
    var e := EnsureClass(data, target);
    if e.classIndex < 0 {
      return Err(UnassignedClass);
    }
    if kind == Classification {
      var labels := PredictLabels(LabelSource(header, e, m.toNominal), m.classIndices);
      assert forall k :: 0 <= k < |data.rows| ==>
        SupervisedPrediction(kind, header, e, m, k) == PredictedLabel(LabelSource(header, e, m.toNominal), m.classIndices[k]);
      if labels.Err? {
        return Err(labels.error);
      }
      return Ok((e, labels.value));
    }
    var preds := [];
    var i := 0;
    while i < |data.rows|
      invariant 0 <= i <= |data.rows| && |preds| == i
      invariant forall k :: 0 <= k < i ==> preds[k] == m.values[k]
    {
      preds := preds + [m.values[i]];
      i := i + 1;
    }
    r := Ok((e, preds));
  }

  /** The distribution as written to the metadata: "Cluster_c" with its count, for every
      cluster c of the model. */
  function Keyed(counts: seq<nat>): (r: seq<(string, nat)>)
    ensures |r| == |counts| && forall c :: 0 <= c < |counts| ==> r[c] == (ClusterLabel(c), counts[c])
  {
    seq(|counts|, c requires 0 <= c < |counts| => (ClusterLabel(c), counts[c]))
  }

  /** `predictClustering`: one "Cluster_c" per row and the count of every cluster. */
  method PredictClustering(m: ModelRun, n: nat) returns (r: Result<(seq<string>, seq<(string, nat)>)>)
    requires Answers(m, n)
    ensures m.numClusters < 0 ==> r == Err(NegativeArraySize(m.numClusters))
    ensures m.numClusters >= 0 ==> (r.Ok? <==> forall i :: 0 <= i < n ==> 0 <= m.clusters[i] < m.numClusters)
    ensures m.numClusters >= 0 && r.Err? ==>
      exists j :: (0 <= j < n && r.error == IndexOutOfBounds(m.clusters[j]) && !(0 <= m.clusters[j] < m.numClusters) &&
        forall i :: 0 <= i < j ==> 0 <= m.clusters[i] < m.numClusters)
    ensures r.Ok? ==>
      && |r.value.0| == n && (forall i :: 0 <= i < n ==> r.value.0[i] == ClusterLabel(m.clusters[i]))
      && m.numClusters >= 0 && r.value.1 == Keyed(Distribution(m.clusters, m.numClusters))
  {
    var counts :- CountClusters(m.clusters, m.numClusters);
    var preds := [];
    var i := 0;
    while i < n
      invariant 0 <= i <= n && |preds| == i
      invariant forall k :: 0 <= k < i ==> preds[k] == ClusterLabel(m.clusters[k])
    {
      preds := preds + [ClusterLabel(m.clusters[i])];
      i := i + 1;
    }
    assert counts == Distribution(m.clusters, m.numClusters);
    r := Ok((preds, Keyed(counts)));
  }

  /** Each row's prediction is a key of the distribution, keys are distinct, and the
      counts add up to the number of rows. */
  lemma ClusterPredictionsCounted(clusters: seq<int>, k: nat)
    requires k <= IntMax
    requires forall i :: 0 <= i < |clusters| ==> 0 <= clusters[i] < k
    ensures var dist := Keyed(Distribution(clusters, k));
      && (forall i :: 0 <= i < |clusters| ==> dist[clusters[i]].0 == ClusterLabel(clusters[i]))
      && (forall a, b :: 0 <= a < b < k ==> dist[a].0 != dist[b].0)
      && Sum(Distribution(clusters, k)) == |clusters|
  {
    DistributionSum(clusters, k);
    forall a, b | 0 <= a < b < k ensures ClusterLabel(a) != ClusterLabel(b) {
      if ClusterLabel(a) == ClusterLabel(b) {
        assert ClusterLabel(a)[|ClusterPrefix|..] == IntToString(a);
        assert ClusterLabel(b)[|ClusterPrefix|..] == IntToString(b);
        IntToStringInjective(a, b);
      }
    }
  }

  // ================================================================ writePredictionsCsv

  /** `setValue` of the class cell from a prediction: a numeric class takes
      Double.parseDouble of it (parseDouble gives the double as Java prints it, or None
      when parsing throws); a nominal class takes it only when it is one of its values. */
  function ClassCell(kind: AttrKind, pred: string, parseDouble: string -> Option<string>): Result<Cell>
  {
    match kind
    case Numeric =>
      (match parseDouble(pred)
       case None => Err(NumberFormat(pred))
       case Some(shown) => Ok(Num(shown)))
    case Nominal(vs) => if pred in vs then Ok(Label(pred)) else Err(UndefinedNominalValue(pred))
  }

  /** The loop that writes the predictions into the class column, row by row; the first
      prediction the column cannot hold ends it. Without a class nothing changes. */
  method FillClass(d: Instances, preds: seq<string>, parseDouble: string -> Option<string>)
    returns (r: Result<Instances>)
    requires Valid(d) && |preds| == |d.rows|
    ensures d.classIndex < 0 ==> r == Ok(d)
    ensures d.classIndex >= 0 ==>
      (r.Ok? <==> forall k :: 0 <= k < |d.rows| ==> ClassCell(d.attrs[d.classIndex].kind, preds[k], parseDouble).Ok?)
    ensures d.classIndex >= 0 && r.Err? ==>
      exists j :: (0 <= j < |d.rows| && ClassCell(d.attrs[d.classIndex].kind, preds[j], parseDouble) == Err(r.error) &&
        forall k :: 0 <= k < j ==> ClassCell(d.attrs[d.classIndex].kind, preds[k], parseDouble).Ok?)
    ensures r.Ok? ==>
      && Valid(r.value) && r.value.attrs == d.attrs && r.value.classIndex == d.classIndex
      && |r.value.rows| == |d.rows|
    ensures r.Ok? && d.classIndex >= 0 ==> forall k :: 0 <= k < |d.rows| ==>
      r.value.rows[k] == d.rows[k][d.classIndex := ClassCell(d.attrs[d.classIndex].kind, preds[k], parseDouble).value]
  {
    if d.classIndex < 0 {
      return Ok(d);
    }
    var ci := d.classIndex;
    var kind := d.attrs[ci].kind;
    var rows := d.rows;
    var i := 0;
    while i < |rows|
      invariant 0 <= i <= |rows| && |rows| == |d.rows|
      invariant forall k :: 0 <= k < i ==> ClassCell(kind, preds[k], parseDouble).Ok?
      invariant forall k :: 0 <= k < i ==> rows[k] == d.rows[k][ci := ClassCell(kind, preds[k], parseDouble).value]
      invariant forall k :: i <= k < |rows| ==> rows[k] == d.rows[k]
    {
      var cell := ClassCell(kind, preds[i], parseDouble);
      if cell.Err? {
        return Err(cell.error);
      }
      rows := rows[i := rows[i][ci := cell.value]];
      i := i + 1;
    }
    r := Ok(d.(rows := rows));
  }

  /** How a cell is written: `instance.value(j)` for a numeric column (a missing value is
      NaN) and `stringValue(j)` otherwise (a missing value is "?"). */
  function CellText(kind: AttrKind, c: Cell): string
  {
    match c
    case Missing => if kind.Numeric? then "NaN" else "?"
    case Num(shown) => shown
    case Label(text) => text
  }

  function RowTexts(attrs: seq<Attribute>, row: Row): (r: seq<string>)
    requires |row| == |attrs|
    ensures |r| == |attrs| && forall j :: 0 <= j < |attrs| ==> r[j] == CellText(attrs[j].kind, row[j])
  {
    seq(|attrs|, j requires 0 <= j < |attrs| => CellText(attrs[j].kind, row[j]))
  }

  /** predictions.csv: a header line of the attribute names, then one line per row. */
  function CsvLines(d: Instances): (r: seq<string>)
    requires Valid(d)
    ensures |r| == |d.rows| + 1
  {
    [Join(Names(d.attrs))] + seq(|d.rows|, k requires 0 <= k < |d.rows| => Join(RowTexts(d.attrs, d.rows[k])))
  }

  /** The StringBuilder loop: a comma before every part but the first. */
  method JoinLine(parts: seq<string>) returns (line: string)
    ensures line == Join(parts)
  {
    line := "";
    var j := 0;
    while j < |parts|
      invariant 0 <= j <= |parts|
      invariant line == Join(parts[..j])
    {
      if j > 0 {
        JoinSnoc(parts[..j], parts[j]);
        line := line + ",";
      }
      assert parts[..j + 1] == parts[..j] + [parts[j]];
      line := line + parts[j];
      j := j + 1;
    }
    assert parts[..|parts|] == parts;
  }

  /** Loop of the source over the header and the rows. */
  method RenderCsv(d: Instances) returns (lines: seq<string>)
    requires Valid(d)
    ensures lines == CsvLines(d)
  {
    var header := JoinLine(Names(d.attrs));
    lines := [header];
    var i := 0;
    while i < |d.rows|
      invariant 0 <= i <= |d.rows|
      invariant |lines| == i + 1 && lines[0] == header
      invariant forall k :: 0 <= k < i ==> lines[k + 1] == Join(RowTexts(d.attrs, d.rows[k]))
    {
      var line := JoinLine(RowTexts(d.attrs, d.rows[i]));
      lines := lines + [line];
      i := i + 1;
    }
  }

  /** The header line reads back as the attribute names when no name holds a comma and
      the last is not empty. */
  lemma HeaderReadsBack(d: Instances)
    requires Valid(d) && |d.attrs| >= 1
    requires forall j :: 0 <= j < |d.attrs| ==> ',' !in d.attrs[j].name
    requires d.attrs[|d.attrs| - 1].name != ""
    ensures Split(CsvLines(d)[0]) == Names(d.attrs)
  {
    SplitJoinAny(Names(d.attrs));
  }

  /** A row line reads back as the written cells under the same conditions. */
  lemma RowReadsBack(d: Instances, k: nat)
    requires Valid(d) && k < |d.rows| && |d.attrs| >= 1
    requires forall j :: 0 <= j < |d.attrs| ==> ',' !in CellText(d.attrs[j].kind, d.rows[k][j])
    requires CellText(d.attrs[|d.attrs| - 1].kind, d.rows[k][|d.attrs| - 1]) != ""
    ensures |Split(CsvLines(d)[k + 1])| == |d.attrs|
    ensures forall j :: 0 <= j < |d.attrs| ==> Split(CsvLines(d)[k + 1])[j] == CellText(d.attrs[j].kind, d.rows[k][j])
  {
    SplitJoinAny(RowTexts(d.attrs, d.rows[k]));
  }

  // ================================================================ predict

  /** What the loaded model object is, which decides whether the casts `(Classifier) model`
      and `(Clusterer) model` succeed. */
  datatype ModelKind = ClassifierModel | ClustererModel

  predicate Castable(kind: AlgorithmType, model: ModelKind)
  {
    if kind == Clustering then model == ClustererModel else model == ClassifierModel
  }

  /** The cluster part of prediction_metadata.json. */
  datatype ClusterSummary = ClusterSummary(numClusters: int, distribution: seq<(string, nat)>)

  /** prediction_metadata.json, without the floating-point mean of a regression. */
  datatype Metadata = Metadata(algorithmType: string, numInstances: nat, numPredictions: nat, clusters: Option<ClusterSummary>)

  /** The two outputs: the lines of predictions.csv and the metadata. */
  datatype Predicted = Predicted(csv: seq<string>, metadata: Metadata)

  /** Step 3b: a supervised run selects the columns and makes sure the target is there; a
      clustering run keeps only the basic columns, when some are given, and no class. */
  function Shaped(d: Instances, algorithmType: string, basic: Option<string>, target: Option<string>): (r: Result<Instances>)
    requires Valid(d) && d.classIndex == -1 && |d.attrs| < IntMax
    ensures r.Ok? ==> Valid(r.value) && |r.value.rows| == |d.rows|
    ensures r.Ok? && IsClustering(algorithmType) ==> r.value.classIndex == -1
  {
    if !IsClustering(algorithmType) then EnsureTarget(d, basic, target) else ClusterData(d, basic)
  }

  method ShapeTestData(d: Instances, algorithmType: string, basic: Option<string>, target: Option<string>)
    returns (r: Result<Instances>)
    requires Valid(d) && d.classIndex == -1 && |d.attrs| < IntMax
    ensures r == Shaped(d, algorithmType, basic, target)
  {
    if !IsClustering(algorithmType) {
      r := SelectColumnsAndEnsureTarget(d, basic, target);
    } else if basic.Some? && basic.value != "" {
      r := SelectClusterColumns(d, basic.value);
    } else {
      r := Ok(d);
    }
  }

  /** The class cell written for row k of a supervised run: the prediction, converted to
      the class attribute's kind. */
  function PredictedCell(kind: AlgorithmType, header: Option<Instances>, d: Instances, m: ModelRun, k: nat): Result<Cell>
    requires Valid(d) && 0 <= d.classIndex && k < |m.classIndices| && k < |m.values|
    requires header.Some? ==> Valid(header.value)
  {
    var pred :- SupervisedPrediction(kind, header, d, m, k);
    ClassCell(d.attrs[d.classIndex].kind, pred, m.parseDouble)
  }

  /** A regressor's answer always fits a numeric class column. */
  lemma RegressionFitsNumeric(header: Option<Instances>, e: Instances, m: ModelRun, k: nat)
    requires Valid(e) && 0 <= e.classIndex && e.attrs[e.classIndex].kind == Numeric
    requires Answers(m, |e.rows|) && k < |e.rows|
    requires header.Some? ==> Valid(header.value)
    ensures PredictedCell(Regression, header, e, m, k).Ok?
  {
  }

  /** header.ser is read only when it is present. */
  function TrainingHeader(modelFiles: Files, header: Option<Instances>): Option<Instances>
  {
    if "header.ser" in modelFiles then header else None
  }

  /** Everything `predict` reads before it shapes the test data is present. */
  predicate InputsPresent(dataFiles: Files, modelFiles: Files, params: Params)
  {
    "params.json" in dataFiles && Required(params, "algorithmType").Ok? &&
    "model.ser" in modelFiles && "test_data.csv" in dataFiles
  }

  /** What a supervised run produces from the data with its class set: no class is an
      error; otherwise it succeeds exactly when every row's prediction fits the class
      column, and then line k + 1 of predictions.csv is row k with its class cell
      replaced by the prediction. A failure is that of the first row whose prediction
      fails, since every prediction is made before any is written; when all predictions
      are made, it is that of the first row whose class cell refuses its prediction. */
  predicate SupervisedOutcome(kind: AlgorithmType, header: Option<Instances>, e: Instances, m: ModelRun, r: Result<Predicted>)
    requires Valid(e) && Answers(m, |e.rows|)
    requires header.Some? ==> Valid(header.value)
  {
    && (e.classIndex < 0 ==> r == Err(UnassignedClass))
    && (e.classIndex >= 0 ==>
          (r.Ok? <==> forall k :: 0 <= k < |e.rows| ==> PredictedCell(kind, header, e, m, k).Ok?))
    && (e.classIndex >= 0 && r.Err? ==>
          if forall k :: 0 <= k < |e.rows| ==> SupervisedPrediction(kind, header, e, m, k).Ok? then
            exists j :: 0 <= j < |e.rows| && PredictedCell(kind, header, e, m, j) == Err(r.error) &&
              forall k :: 0 <= k < j ==> PredictedCell(kind, header, e, m, k).Ok?
          else
            exists j :: 0 <= j < |e.rows| && SupervisedPrediction(kind, header, e, m, j) == Err(r.error) &&
              forall k :: 0 <= k < j ==> SupervisedPrediction(kind, header, e, m, k).Ok?)
    && (r.Ok? ==> (0 <= e.classIndex && r.value.metadata.clusters.None? && |r.value.csv| == |e.rows| + 1 &&
          forall k :: 0 <= k < |e.rows| ==>
            r.value.csv[k + 1] == Join(RowTexts(e.attrs, e.rows[k][e.classIndex := PredictedCell(kind, header, e, m, k).value]))))
  }

  /** What a clustering run produces: it succeeds exactly when the model has a
      non-negative number of clusters and assigns every row to one of them; predictions.csv
      is then the data as shaped, and the metadata counts the rows of each cluster. */
  predicate ClusteringOutcome(d: Instances, m: ModelRun, r: Result<Predicted>)
    requires Valid(d) && Answers(m, |d.rows|)
  {
    && (r.Ok? <==> m.numClusters >= 0 && forall i :: 0 <= i < |d.rows| ==> 0 <= m.clusters[i] < m.numClusters)
    && (r.Ok? ==> (m.numClusters >= 0 && r.value.csv == CsvLines(d) &&
          r.value.metadata.clusters == Some(ClusterSummary(m.numClusters, Keyed(Distribution(m.clusters, m.numClusters))))))
  }

  /** The test data as step 3b leaves it, for the parameters given. */
  function ShapedFor(testData: Instances, params: Params): (r: Result<Instances>)
    requires Valid(testData) && testData.classIndex == -1 && |testData.attrs| < IntMax
    requires Required(params, "algorithmType").Ok?
    ensures r.Ok? ==> Valid(r.value) && |r.value.rows| == |testData.rows|
    ensures r.Ok? && IsClustering(Required(params, "algorithmType").value) ==> r.value.classIndex == -1
  {
    Shaped(testData, Required(params, "algorithmType").value,
           Optional(params, "basicAttributesColumns"), Optional(params, "targetColumn"))
  }

  /** When `predict` gets through: the inputs are there, the test data can be shaped, the
      type is known and matches the model, and the model's answers fit: every row falls in
      a cluster, or the data has a class and every prediction fits it. */
  predicate PredictSucceeds(dataFiles: Files, modelFiles: Files, params: Params, model: ModelKind,
                            header: Option<Instances>, testData: Instances, m: ModelRun)
    requires Valid(testData) && testData.classIndex == -1 && |testData.attrs| < IntMax
    requires Answers(m, |testData.rows|)
    requires header.Some? ==> Valid(header.value)
  {
    && InputsPresent(dataFiles, modelFiles, params)
    && ShapedFor(testData, params).Ok?
    && var t := Required(params, "algorithmType").value;
       var d := ShapedFor(testData, params).value;
       var kind := ParseAlgorithmType(t);
       && kind.Ok? && Castable(kind.value, model)
       && if kind.value == Clustering then
            m.numClusters >= 0 && forall i :: 0 <= i < |d.rows| ==> 0 <= m.clusters[i] < m.numClusters
          else
            var e := EnsureClass(d, Optional(params, "targetColumn"));
            && 0 <= e.classIndex
            && forall k :: 0 <= k < |e.rows| ==>
                 PredictedCell(kind.value, TrainingHeader(modelFiles, header), e, m, k).Ok?
  }

  /** `predict`: read the parameters, the model, the optional header and the test data,
      shape the test data, run the model, write the predictions into the class column and
      render predictions.csv and the metadata. */
  method Predict(dataFiles: Files, modelFiles: Files, params: Params, model: ModelKind,
                 header: Option<Instances>, testData: Instances, m: ModelRun)
    returns (r: Result<Predicted>)
    requires Valid(testData) && testData.classIndex == -1 && |testData.attrs| < IntMax
    requires Answers(m, |testData.rows|)
    requires header.Some? ==> Valid(header.value)
    ensures "params.json" !in dataFiles ==> r == Err(MissingFile("params.json"))
    ensures "params.json" in dataFiles && Required(params, "algorithmType").Err? ==>
      r == Err(MissingParam("algorithmType"))
    ensures "params.json" in dataFiles && Required(params, "algorithmType").Ok? && "model.ser" !in modelFiles ==>
      r == Err(MissingFile("model.ser"))
    ensures ("params.json" in dataFiles && Required(params, "algorithmType").Ok? && "model.ser" in modelFiles &&
             "test_data.csv" !in dataFiles) ==> r == Err(MissingFile("test_data.csv"))
    ensures r.Ok? ==> InputsPresent(dataFiles, modelFiles, params)
    ensures r.Ok? <==> PredictSucceeds(dataFiles, modelFiles, params, model, header, testData, m)
    ensures InputsPresent(dataFiles, modelFiles, params) && ShapedFor(testData, params).Err? ==>
      r == Err(ShapedFor(testData, params).error)
    ensures InputsPresent(dataFiles, modelFiles, params) && ShapedFor(testData, params).Ok? ==>
      var t := Required(params, "algorithmType").value;
      var d := ShapedFor(testData, params).value;
      && (ParseAlgorithmType(t).Err? ==> r == Err(UnknownAlgorithmType(t)))
      && (ParseAlgorithmType(t).Ok? && !Castable(ParseAlgorithmType(t).value, model) ==> r == Err(ClassCast))
      && (r.Ok? ==> (ParseAlgorithmType(t).Ok? && Castable(ParseAlgorithmType(t).value, model) &&
            r.value.metadata.algorithmType == t &&
            r.value.metadata.numInstances == |testData.rows| && r.value.metadata.numPredictions == |testData.rows| &&
            |r.value.csv| == |testData.rows| + 1 && r.value.csv[0] == Join(Names(d.attrs))))
      && (ParseAlgorithmType(t) == Ok(Clustering) && model == ClustererModel ==> ClusteringOutcome(d, m, r))
      && (ParseAlgorithmType(t).Ok? && ParseAlgorithmType(t).value != Clustering && model == ClassifierModel ==>
            SupervisedOutcome(ParseAlgorithmType(t).value, TrainingHeader(modelFiles, header),
                              EnsureClass(d, Optional(params, "targetColumn")), m, r))
  {
    if "params.json" !in dataFiles {
      return Err(MissingFile("params.json"));
    }
    var algorithmType :- Required(params, "algorithmType");
    var target := Optional(params, "targetColumn");
    var basic := Optional(params, "basicAttributesColumns");
    if "model.ser" !in modelFiles {
      return Err(MissingFile("model.ser"));
    }
    var trainingHeader := TrainingHeader(modelFiles, header);
    if "test_data.csv" !in dataFiles {
      return Err(MissingFile("test_data.csv"));
    }
    var data :- ShapeTestData(testData, algorithmType, basic, target);
    var kind :- ParseAlgorithmType(algorithmType);
    if !Castable(kind, model) {
      return Err(ClassCast);
    }
    if kind == Clustering {
      r := PredictAndCount(data, m, algorithmType);
    } else {
      r := PredictAndWrite(kind, trainingHeader, data, target, m, algorithmType);
    }
  }

  /** The clustering tail of `predict`: assign, count, render the data as it is. */
  method PredictAndCount(data: Instances, m: ModelRun, algorithmType: string) returns (r: Result<Predicted>)
    requires Valid(data) && Answers(m, |data.rows|)
    ensures ClusteringOutcome(data, m, r)
    ensures r.Ok? ==> (r.value.metadata.algorithmType == algorithmType &&
      r.value.metadata.numInstances == |data.rows| && r.value.metadata.numPredictions == |data.rows| &&
      |r.value.csv| == |data.rows| + 1 && r.value.csv[0] == Join(Names(data.attrs)))
  {
    var out :- PredictClustering(m, |data.rows|);
    var csv := RenderCsv(data);
    var summary := ClusterSummary(m.numClusters, out.1);
    return Ok(Predicted(csv, Metadata(algorithmType, |data.rows|, |out.0|, Some(summary))));
  }

  /** The supervised tail of `predict`: run the classifier, fill the class column, render. */
  method PredictAndWrite(kind: AlgorithmType, header: Option<Instances>, data: Instances, target: Option<string>,
                         m: ModelRun, algorithmType: string)
    returns (r: Result<Predicted>)
    requires kind != Clustering
    requires Valid(data) && Answers(m, |data.rows|)
    requires header.Some? ==> Valid(header.value)
    ensures SupervisedOutcome(kind, header, EnsureClass(data, target), m, r)
    ensures r.Ok? ==> (r.value.metadata.algorithmType == algorithmType &&
      r.value.metadata.numInstances == |data.rows| && r.value.metadata.numPredictions == |data.rows| &&
      r.value.csv[0] == Join(Names(data.attrs)))
  {
    var e := EnsureClass(data, target);
    var out := PredictSupervised(kind, header, data, target, m);
    if out.Err? {
      if e.classIndex >= 0 {
        var k :| 0 <= k < |data.rows| && SupervisedPrediction(kind, header, e, m, k).Err?;
        assert PredictedCell(kind, header, e, m, k).Err?;
      }
      return Err(out.error);
    }
    assert out.value.0 == e;
    var preds := out.value.1;
    var csv := FillAndRender(e, preds, m.parseDouble);
    assert forall k :: 0 <= k < |data.rows| ==>
      PredictedCell(kind, header, e, m, k) == ClassCell(e.attrs[e.classIndex].kind, preds[k], m.parseDouble);
    if csv.Err? {
      return Err(csv.error);
    }
    r := Ok(Predicted(csv.value, Metadata(algorithmType, |data.rows|, |preds|, None)));
  }

  /** `writePredictionsCsv` for data with a class: fill the class column, then render. */
  method FillAndRender(d: Instances, preds: seq<string>, parseDouble: string -> Option<string>)
    returns (r: Result<seq<string>>)
    requires Valid(d) && 0 <= d.classIndex && |preds| == |d.rows|
    ensures r.Ok? <==> forall k :: 0 <= k < |d.rows| ==> ClassCell(d.attrs[d.classIndex].kind, preds[k], parseDouble).Ok?
    ensures r.Err? ==>
      exists j :: (0 <= j < |d.rows| && ClassCell(d.attrs[d.classIndex].kind, preds[j], parseDouble) == Err(r.error) &&
        forall k :: 0 <= k < j ==> ClassCell(d.attrs[d.classIndex].kind, preds[k], parseDouble).Ok?)
    ensures r.Ok? ==> (|r.value| == |d.rows| + 1 && r.value[0] == Join(Names(d.attrs)) &&
      forall k :: 0 <= k < |d.rows| ==>
        r.value[k + 1] == Join(RowTexts(d.attrs, d.rows[k][d.classIndex := ClassCell(d.attrs[d.classIndex].kind, preds[k], parseDouble).value])))
  {
    var filled :- FillClass(d, preds, parseDouble);
    var csv := RenderCsv(filled);
    return Ok(csv);
  }
}
