/** The column-selection steps that the trainer and the predictor share: reading the
    comma-separated list of 1-based feature indices, turning chosen names into the
    positions to keep, and the Remove filter that keeps them. */
module ColumnSelection {
  import opened Wrappers
  import opened JavaText
  import opened Weka

  /** One entry of the comma-separated list after `trim()` and `Integer.parseInt`. */
  datatype Entry = Entry(text: string, value: Option<int>)

  /** `Integer.parseInt(indexStr.trim())`, keeping the trimmed text for the exception. */
  function ParseEntry(token: string): Entry
  {
    Entry(Trim(token), ParseInt(Trim(token)))
  }

  function Entries(tokens: seq<string>): (r: seq<Entry>)
    ensures |r| == |tokens|
    ensures forall i :: 0 <= i < |tokens| && r[i].value.Some? ==> InIntRange(r[i].value.value)
    ensures forall i :: 0 <= i < |tokens| ==> r[i] == ParseEntry(tokens[i])
  {
    seq(|tokens|, i requires 0 <= i < |tokens| => ParseEntry(tokens[i]))
  }

  /** The entry names the 0-based column k. */
  predicate Denotes(e: Entry, k: int)
  {
    e.value == Some(k + 1)
  }

  /** The entry is not an int: parseInt throws. */
  predicate Malformed(e: Entry)
  {
    e.value.None?
  }

  /** The valid 0-based indices named by the entries, in list order; the first entry
      that is not an int raises NumberFormatException. Indices outside [0, n) are skipped. */
  function SelectedIndices(n: nat, es: seq<Entry>): Result<seq<nat>>
    requires n <= IntMax
  {
    if es == [] then Ok([]) else Step(n, SelectedIndices(n, es[..|es| - 1]), es[|es| - 1])
  }

  /** One turn of the loop over the entries. */
  function Step(n: nat, acc: Result<seq<nat>>, e: Entry): Result<seq<nat>>
    requires n <= IntMax
  {
    match acc
    case Err(err) => Err(err)
    case Ok(ks) =>
      match e.value
      case None => Err(NumberFormat(e.text))
      case Some(v) =>
        if InIntRange(v) then
          var idx := Dec32(v);
          Ok(if 0 <= idx < n then ks + [idx as nat] else ks)
        else Ok(ks)
  }

  /** One more entry that is an int extends the indices collected so far. */
  lemma SelectedIndicesNext(n: nat, es: seq<Entry>, i: nat, ks: seq<nat>)
    requires n <= IntMax && i < |es|
    requires SelectedIndices(n, es[..i]) == Ok(ks)
    requires es[i].value.Some? && InIntRange(es[i].value.value)
    ensures var idx := Dec32(es[i].value.value);
      SelectedIndices(n, es[..i + 1]) == Ok(if 0 <= idx < n then ks + [idx as nat] else ks)
  {
    SelectedIndicesPrefix(n, es, i);
  }

  /** An entry that is not an int after a prefix that parses ends the whole list with it. */
  lemma SelectedIndicesStop(n: nat, es: seq<Entry>, i: nat, ks: seq<nat>)
    requires n <= IntMax && i < |es|
    requires SelectedIndices(n, es[..i]) == Ok(ks)
    requires es[i].value.None?
    ensures SelectedIndices(n, es) == Err(NumberFormat(es[i].text))
  {
    SelectedIndicesPrefix(n, es, i);
    SelectedIndicesPrefixErr(n, es, i + 1);
  }

  lemma SelectedIndicesPrefix(n: nat, es: seq<Entry>, i: nat)
    requires n <= IntMax && i < |es|
    ensures SelectedIndices(n, es[..i + 1]) == Step(n, SelectedIndices(n, es[..i]), es[i])
  {
    assert es[..i + 1][..i] == es[..i];
  }

  /** Entry j is the first entry that is not an int. */
  predicate FirstMalformed(es: seq<Entry>, j: int)
  {
    0 <= j < |es| && Malformed(es[j]) && forall i :: 0 <= i < j ==> !Malformed(es[i])
  }

  /** The list fails exactly when one of its entries is not an int, and then with the
      first such entry. */
  lemma {:induction false} SelectedIndicesFails(n: nat, es: seq<Entry>)
    requires n <= IntMax
    ensures SelectedIndices(n, es).Err? <==> exists j :: 0 <= j < |es| && Malformed(es[j])
    ensures SelectedIndices(n, es).Err? ==>
      exists j :: FirstMalformed(es, j) && SelectedIndices(n, es).error == NumberFormat(es[j].text)
  {
    if es != [] {
      var init := es[..|es| - 1];
      SelectedIndicesFails(n, init);
      assert forall j :: 0 <= j < |init| ==> init[j] == es[j];
      if SelectedIndices(n, init).Err? {
        var j :| FirstMalformed(init, j) && SelectedIndices(n, init).error == NumberFormat(init[j].text);
        assert FirstMalformed(es, j);
      } else if Malformed(es[|es| - 1]) {
        assert FirstMalformed(es, |es| - 1);
      }
    }
  }

  /** A list that parses holds exactly the in-range indices its entries denote. */
  lemma {:induction false} SelectedIndicesMembers(n: nat, es: seq<Entry>)
    requires n <= IntMax
    requires SelectedIndices(n, es).Ok?
    ensures forall i :: 0 <= i < |SelectedIndices(n, es).value| ==> SelectedIndices(n, es).value[i] < n
    ensures forall k :: 0 <= k < n ==>
        (k in SelectedIndices(n, es).value <==> exists j :: 0 <= j < |es| && Denotes(es[j], k))
  {
    if es != [] {
      var init := es[..|es| - 1];
      var last := es[|es| - 1];
      SelectedIndicesMembers(n, init);
      var ks := SelectedIndices(n, init).value;
      var r := SelectedIndices(n, es).value;
      forall k | 0 <= k < n
        ensures k in r <==> exists j :: 0 <= j < |es| && Denotes(es[j], k)
      {
        if k in r && k !in ks {
          assert Denotes(es[|es| - 1], k);
        }
        if exists j :: 0 <= j < |es| && Denotes(es[j], k) {
          var j :| 0 <= j < |es| && Denotes(es[j], k);
          if j < |init| { assert Denotes(init[j], k); }
        }
      }
    }
  }

  /** What the last entry adds to the indices of the entries before it: the column it
      denotes, when that is one of the n, and nothing otherwise. */
  lemma SelectedIndicesLast(n: nat, es: seq<Entry>)
    requires n <= IntMax && es != [] && SelectedIndices(n, es).Ok?
    ensures SelectedIndices(n, es[..|es| - 1]).Ok?
    ensures var v := es[|es| - 1].value;
      SelectedIndices(n, es).value ==
        SelectedIndices(n, es[..|es| - 1]).value + (if v.Some? && 1 <= v.value <= n then [v.value - 1] else [])
  {
  }

  /** Two entries of the list denote the same column of a dataset with n columns. */
  predicate Repeated(es: seq<Entry>, n: nat)
  {
    exists j1, j2, k :: 0 <= j1 < j2 < |es| && 0 <= k < n && Denotes(es[j1], k) && Denotes(es[j2], k)
  }

  /** A list that parses yields a position twice exactly when two of its entries denote
      the same column. */
  lemma {:induction false} SelectedIndicesRepeats(n: nat, es: seq<Entry>)
    requires n <= IntMax && SelectedIndices(n, es).Ok?
    ensures NoRepeats(SelectedIndices(n, es).value) <==> !Repeated(es, n)
  {
    if es != [] {
      var init := es[..|es| - 1];
      var last := es[|es| - 1];
      SelectedIndicesLast(n, es);
      SelectedIndicesRepeats(n, init);
      SelectedIndicesMembers(n, init);
      var ks := SelectedIndices(n, init).value;
      var r := SelectedIndices(n, es).value;
      assert forall j :: 0 <= j < |init| ==> init[j] == es[j];
      if Repeated(init, n) {
        var j1, j2, k :| 0 <= j1 < j2 < |init| && 0 <= k < n && Denotes(init[j1], k) && Denotes(init[j2], k);
        assert Denotes(es[j1], k) && Denotes(es[j2], k);
      }
      if last.value.Some? && 1 <= last.value.value <= n {
        var k := last.value.value - 1;
        assert r == ks + [k];
        if k in ks {
          var j :| 0 <= j < |es| - 1 && Denotes(init[j], k);
          assert Denotes(es[j], k);
          var a :| 0 <= a < |ks| && ks[a] == k;
          assert r[a] == r[|ks|];
        } else if NoRepeats(ks) {
          forall a, b | 0 <= a < b < |r| ensures r[a] != r[b] {
            if b == |ks| { assert r[a] == ks[a]; }
          }
          forall j1, j2, k' | 0 <= j1 < j2 < |es| && 0 <= k' < n && Denotes(es[j1], k')
            ensures !Denotes(es[j2], k')
          {
            if j2 < |es| - 1 {
              assert Denotes(init[j1], k');
            } else if Denotes(es[j2], k') {
              assert Denotes(init[j1], k);
            }
          }
        } else {
          var a, b :| 0 <= a < b < |ks| && ks[a] == ks[b];
          assert r[a] == r[b];
        }
      } else {
        assert r == ks;
        forall j1, j2, k | 0 <= j1 < j2 < |es| && 0 <= k < n && Denotes(es[j1], k)
          ensures !Denotes(es[j2], k) || Repeated(init, n)
        {
          if j2 < |es| - 1 && Denotes(es[j2], k) {
            assert Denotes(init[j1], k) && Denotes(init[j2], k);
          }
        }
      }
    }
  }

  /** Entries that denote columns come before one another in the list exactly as their
      columns do in keep. */
  predicate InListOrder(es: seq<Entry>, keep: seq<nat>)
  {
    forall i1, i2, j1, j2 ::
      (0 <= i1 < |keep| && 0 <= i2 < |keep| && 0 <= j1 < j2 < |es| &&
       Denotes(es[j1], keep[i1]) && Denotes(es[j2], keep[i2])) ==> i1 < i2
  }

  /** Without repeats, the indices keep the order of the entries that denote them. */
  lemma {:induction false} SelectedIndicesOrder(n: nat, es: seq<Entry>)
    requires n <= IntMax && SelectedIndices(n, es).Ok? && !Repeated(es, n)
    ensures InListOrder(es, SelectedIndices(n, es).value)
  {
    if es != [] {
      var init := es[..|es| - 1];
      var last := es[|es| - 1];
      SelectedIndicesLast(n, es);
      SelectedIndicesMembers(n, init);
      SelectedIndicesMembers(n, es);
      SelectedIndicesRepeats(n, es);
      var ks := SelectedIndices(n, init).value;
      var r := SelectedIndices(n, es).value;
      assert forall j :: 0 <= j < |init| ==> init[j] == es[j];
      assert !Repeated(init, n) by {
        forall j1, j2, k | 0 <= j1 < j2 < |init| && 0 <= k < n && Denotes(init[j1], k)
          ensures !Denotes(init[j2], k)
        {
          assert Denotes(es[j1], k);
        }
      }
      SelectedIndicesOrder(n, init);
      forall i1, i2, j1, j2 | 0 <= i1 < |r| && 0 <= i2 < |r| && 0 <= j1 < j2 < |es| &&
          Denotes(es[j1], r[i1]) && Denotes(es[j2], r[i2])
        ensures i1 < i2
      {
        OrderStep(n, es, i1, i2, j1, j2);
      }
    }
  }

  /** One step of SelectedIndicesOrder: two entries of the list, their positions among the
      indices compared through the entries before the last. */
  lemma OrderStep(n: nat, es: seq<Entry>, i1: nat, i2: nat, j1: nat, j2: nat)
    requires n <= IntMax && es != [] && SelectedIndices(n, es).Ok?
    requires SelectedIndices(n, es[..|es| - 1]).Ok?
    requires NoRepeats(SelectedIndices(n, es).value)
    requires InListOrder(es[..|es| - 1], SelectedIndices(n, es[..|es| - 1]).value)
    requires i1 < |SelectedIndices(n, es).value| && i2 < |SelectedIndices(n, es).value| && j1 < j2 < |es|
    requires Denotes(es[j1], SelectedIndices(n, es).value[i1]) && Denotes(es[j2], SelectedIndices(n, es).value[i2])
    ensures i1 < i2
  {
    var init := es[..|es| - 1];
    var ks := SelectedIndices(n, init).value;
    var r := SelectedIndices(n, es).value;
    var m := |ks|;
    SelectedIndicesLast(n, es);
    SelectedIndicesMembers(n, init);
    SelectedIndicesMembers(n, es);
    assert forall a :: 0 <= a < m ==> r[a] == ks[a];
    if |r| == m {
      assert j2 < |es| - 1;
      assert Denotes(init[j1], ks[i1]) && Denotes(init[j2], ks[i2]);
    } else {
      assert Denotes(es[|es| - 1], r[m]);
      forall a | 0 <= a < m ensures ks[a] != r[m] {
        assert r[a] == ks[a];
      }
      assert r[m] !in ks;
      assert !Denotes(init[j1], r[m]);
      assert i1 != m;
      if j2 < |es| - 1 {
        assert !Denotes(init[j2], r[m]);
        assert Denotes(init[j1], ks[i1]) && Denotes(init[j2], ks[i2]);
      } else {
        assert r[i2] == r[m];
      }
    }
  }

  /** Two entries that both name one of three columns select them in list order. */
  lemma TwoEntries(es: seq<Entry>, a: nat, b: nat)
    requires |es| == 2 && a < 3 && b < 3 && es[0].value == Some(a + 1) && es[1].value == Some(b + 1)
    ensures SelectedIndices(3, es).Ok? && SelectedIndices(3, es).value == [a, b]
  {
    var e0 := [es[0]];
    assert es[..1] == e0;
    assert e0[..0] == [];
    var r0 := SelectedIndices(3, []);
    assert r0 == Ok([]);
    var r1 := SelectedIndices(3, e0);
    assert r1 == Step(3, r0, es[0]);
    assert r1.value == [a];
    assert SelectedIndices(3, es) == Step(3, r1, es[1]);
  }

  /** A token list with an entry that is not an int. */
  lemma MalformedTokenFails(n: nat, es: seq<Entry>, j: nat)
    requires n <= IntMax
    requires j < |es| && Malformed(es[j])
    ensures SelectedIndices(n, es).Err?
  {
    SelectedIndicesFails(n, es);
  }

  /** The names a `basicAttributesColumns` value selects, in list order: every column
      when the value is null or empty, else the columns its valid entries denote. */
  function SelectedNames(names: seq<string>, basic: Option<string>): Result<seq<string>>
    requires |names| <= IntMax
  {
    if basic.None? || basic.value == "" then Ok(names)
    else ListedNames(names, Split(basic.value))
  }

  /** The names of the columns that a non-empty list's entries denote. */
  function ListedNames(names: seq<string>, tokens: seq<string>): Result<seq<string>>
    requires |names| <= IntMax
  {
    NamesOfEntries(names, Entries(tokens))
  }

  function NamesOfEntries(names: seq<string>, es: seq<Entry>): Result<seq<string>>
    requires |names| <= IntMax
  {
    match SelectedIndices(|names|, es)
    case Err(e) => Err(e)
    case Ok(ks) =>
      SelectedIndicesMembers(|names|, es);
      Ok(NamesAt(names, ks))
  }

  /** Every entry that parsed holds a Java int. */
  predicate IntEntries(es: seq<Entry>)
  {
    forall j :: 0 <= j < |es| && es[j].value.Some? ==> InIntRange(es[j].value.value)
  }

  /** The names at the given positions, in the same order. */
  function NamesAt(names: seq<string>, ks: seq<nat>): (r: seq<string>)
    requires forall i :: 0 <= i < |ks| ==> ks[i] < |names|
    ensures |r| == |ks| && forall i :: 0 <= i < |ks| ==> r[i] == names[ks[i]]
  {
    seq(|ks|, i requires 0 <= i < |ks| => names[ks[i]])
  }

  /** A selected name is always one of the dataset's; a null or empty list selects
      every column; otherwise column k is selected exactly when some entry denotes it. */
  lemma SelectedNamesSpec(names: seq<string>, basic: Option<string>)
    requires |names| <= IntMax && Distinct(names)
    ensures SelectedNames(names, basic).Ok? ==>
      forall x :: x in SelectedNames(names, basic).value ==> x in names
    ensures (basic.None? || basic.value == "") ==> SelectedNames(names, basic) == Ok(names)
    ensures basic.Some? && basic.value != "" ==>
      var es := Entries(Split(basic.value));
      && (SelectedNames(names, basic).Err? <==> exists j :: 0 <= j < |es| && Malformed(es[j]))
      && (SelectedNames(names, basic).Ok? ==>
           forall k :: 0 <= k < |names| ==>
             (names[k] in SelectedNames(names, basic).value <==> exists j :: 0 <= j < |es| && Denotes(es[j], k)))
  {
    if basic.Some? && basic.value != "" {
      NamesOfEntriesSpec(names, Entries(Split(basic.value)));
    }
  }

  /** The same, for any list of parsed entries. */
  lemma NamesOfEntriesSpec(names: seq<string>, es: seq<Entry>)
    requires |names| <= IntMax && Distinct(names)
    ensures NamesOfEntries(names, es).Ok? ==>
      forall x :: x in NamesOfEntries(names, es).value ==> x in names
    ensures NamesOfEntries(names, es).Err? <==> exists j :: 0 <= j < |es| && Malformed(es[j])
    ensures NamesOfEntries(names, es).Ok? ==>
      forall k :: 0 <= k < |names| ==>
        (names[k] in NamesOfEntries(names, es).value <==> exists j :: 0 <= j < |es| && Denotes(es[j], k))
  {
    SelectedIndicesFails(|names|, es);
    if NamesOfEntries(names, es).Ok? {
      SelectedIndicesMembers(|names|, es);
      var ks := SelectedIndices(|names|, es).value;
      var sel := NamesOfEntries(names, es).value;
      forall k | 0 <= k < |names|
        ensures names[k] in sel <==> k in ks
      {
        if names[k] in sel {
          var i :| 0 <= i < |sel| && sel[i] == names[k];
          assert names[ks[i]] == names[k];
        }
        if k in ks {
          var i :| 0 <= i < |ks| && ks[i] == k;
          assert sel[i] == names[k];
        }
      }
    }
  }

  /** Loop of the source: every column name when the list is null or empty, else the
      names collected by ListColumnNames. */
  method CollectColumnNames(names: seq<string>, basic: Option<string>) returns (r: Result<seq<string>>)
    requires |names| <= IntMax
    ensures r == SelectedNames(names, basic)
  {
    if basic.None? || basic.value == "" {
      var all := [];
      var i := 0;
      while i < |names|
        invariant 0 <= i <= |names|
        invariant all == names[..i]
      {
        all := all + [names[i]];
        i := i + 1;
      }
      assert names[..|names|] == names;
      return Ok(all);
    }
    r := ListColumnNames(names, Split(basic.value));
  }

  /** Loop of the source: walks the split list and collects the names of the columns its
      in-range entries denote, stopping at the first entry that is not an int. Trimming
      and parsing a token has no effect besides its value or its exception, so the
      tokens are read into entries first and the loop works on those. */
  method ListColumnNames(names: seq<string>, tokens: seq<string>) returns (r: Result<seq<string>>)
    requires |names| <= IntMax
    ensures r == ListedNames(names, tokens)
  {
    var es := Entries(tokens);
    assert IntEntries(es);
    r := CollectListed(names, es);
  }

  method CollectListed(names: seq<string>, es: seq<Entry>) returns (r: Result<seq<string>>)
    requires |names| <= IntMax && IntEntries(es)
    ensures r == NamesOfEntries(names, es)
  {
    var acc: seq<string> := [];
    ghost var ks: seq<nat> := [];
    var i := 0;
    while i < |es|
      invariant 0 <= i <= |es|
      invariant SelectedIndices(|names|, es[..i]) == Ok(ks)
      invariant forall j :: 0 <= j < |ks| ==> ks[j] < |names|
      invariant acc == NamesAt(names, ks)
    {
      var e := es[i];
      if e.value.None? {
        SelectedIndicesStop(|names|, es, i, ks);
        return Err(NumberFormat(e.text));
      }
      assert InIntRange(e.value.value);
      var idx := Dec32(e.value.value);
      SelectedIndicesNext(|names|, es, i, ks);
      if 0 <= idx < |names| {
        acc := acc + [names[idx]];
        ks := ks + [idx];
      }
      i := i + 1;
    }
    assert es[..|es|] == es;
    return Ok(acc);
  }

  /** Once a prefix of the list fails, the whole list fails the same way. */
  lemma {:induction false} SelectedIndicesPrefixErr(n: nat, es: seq<Entry>, i: nat)
    requires n <= IntMax
    requires i <= |es|
    requires SelectedIndices(n, es[..i]).Err?
    ensures SelectedIndices(n, es) == SelectedIndices(n, es[..i])
    decreases |es| - i
  {
    if i < |es| {
      assert es[..i + 1][..i] == es[..i];
      SelectedIndicesPrefixErr(n, es, i + 1);
    } else {
      assert es[..i] == es;
    }
  }

  /** The positions, in dataset order, of the columns whose name was chosen. */
  function IndicesNamed(names: seq<string>, chosen: seq<string>): (r: seq<nat>)
    ensures StrictlyIncreasing(r)
    ensures forall i :: 0 <= i < |r| ==> r[i] < |names|
    ensures forall k :: 0 <= k < |names| ==> (k in r <==> names[k] in chosen)
  {
    if names == [] then []
    else
      var init := IndicesNamed(names[..|names| - 1], chosen);
      if names[|names| - 1] in chosen then init + [|names| - 1] else init
  }

  /** Choosing c and then a among a, b, c keeps positions 0 and 2, in that order. */
  lemma IndicesNamedExample()
    ensures IndicesNamed(["a", "b", "c"], ["c", "a"]) == [0, 2]
  {
    var names, chosen := ["a", "b", "c"], ["c", "a"];
    assert names[..2] == ["a", "b"] && names[..2][..1] == ["a"] && names[..2][..1][..0] == [];
    assert IndicesNamed(["a"], chosen) == [0];
    assert IndicesNamed(["a", "b"], chosen) == [0];
  }

  /** Loop of the source: the indices to keep, in dataset order. */
  method IndicesToKeep(names: seq<string>, chosen: seq<string>) returns (keep: seq<nat>)
    ensures keep == IndicesNamed(names, chosen)
  {
    keep := [];
    var i := 0;
    while i < |names|
      invariant 0 <= i <= |names|
      invariant keep == IndicesNamed(names[..i], chosen)
    {
      assert names[..i + 1][..i] == names[..i];
      if names[i] in chosen {
        keep := keep + [i];
      }
      i := i + 1;
    }
    assert names[..|names|] == names;
  }

  /** `if (indicesToKeep.size() < numAttributes) filter else keep data`. */
  function KeepColumns(d: Instances, keep: seq<nat>): (r: Instances)
    requires Valid(d) && d.classIndex == -1
    requires StrictlyIncreasing(keep)
    requires forall i :: 0 <= i < |keep| ==> keep[i] < |d.attrs|
  {
    if |keep| < |d.attrs| then Project(d, keep) else d
  }

  /** A strictly increasing list of positions below n with n entries lists every position. */
  lemma {:induction false} IncreasingFull(keep: seq<nat>, n: nat)
    requires StrictlyIncreasing(keep) && |keep| == n
    requires forall i :: 0 <= i < |keep| ==> keep[i] < n
    ensures forall i :: 0 <= i < n ==> keep[i] == i
  {
    if n > 0 {
      var init := keep[..n - 1];
      assert keep[n - 1] == n - 1 by {
        forall i | 0 <= i < n ensures keep[i] >= i {
          AtLeastIndex(keep, i);
        }
      }
      IncreasingFull(init, n - 1);
    }
  }

  /** The size shortcut is only an optimisation: skipping the filter when every column
      is kept gives the same dataset as running it. */
  lemma KeepColumnsIsProject(d: Instances, keep: seq<nat>)
    requires Valid(d) && d.classIndex == -1
    requires StrictlyIncreasing(keep)
    requires forall i :: 0 <= i < |keep| ==> keep[i] < |d.attrs|
    ensures KeepColumns(d, keep) == Project(d, keep)
  {
    if |keep| >= |d.attrs| {
      assert |keep| <= |d.attrs| by { DistinctBound(keep, |d.attrs|); }
      IncreasingFull(keep, |d.attrs|);
      ProjectAll(d, keep);
    }
  }

  /** r holds the columns of d at the positions keep, in the dataset's order, and every
      row of d restricted to them. */
  predicate KeptInOrder(d: Instances, r: Instances, keep: seq<nat>)
  {
    StrictlyIncreasing(keep) && ColumnsAt(d, r, keep)
  }

  /** r holds the columns of d at the positions keep, in the order keep lists them, and
      every row of d restricted to them. */
  predicate ColumnsAt(d: Instances, r: Instances, keep: seq<nat>)
  {
    && Valid(d)
    && (forall i :: 0 <= i < |keep| ==> keep[i] < |d.attrs|)
    && |r.attrs| == |keep| && |r.rows| == |d.rows|
    && (forall i :: 0 <= i < |keep| ==> r.attrs[i] == d.attrs[keep[i]])
    && (forall k :: 0 <= k < |d.rows| ==> |r.rows[k]| == |keep|)
    && (forall k, i :: 0 <= k < |d.rows| && 0 <= i < |keep| ==> r.rows[k][i] == d.rows[k][keep[i]])
  }

  /** Filtering keeps exactly the listed columns, in the dataset's order, and every row. */
  lemma KeepColumnsKeeps(d: Instances, keep: seq<nat>)
    requires Valid(d) && d.classIndex == -1
    requires StrictlyIncreasing(keep)
    requires forall i :: 0 <= i < |keep| ==> keep[i] < |d.attrs|
    ensures Valid(KeepColumns(d, keep)) && KeepColumns(d, keep).classIndex == -1
    ensures KeptInOrder(d, KeepColumns(d, keep), keep)
  {
    KeepColumnsIsProject(d, keep);
  }

  /** Whether the feature list selects column k: a null or empty list selects every
      column, otherwise an entry must denote k. */
  predicate ListSelects(basic: Option<string>, k: nat)
  {
    || basic.None? || basic.value == ""
    || (var es := Entries(Split(basic.value)); exists j :: 0 <= j < |es| && Denotes(es[j], k))
  }

  /** Setting the class after filtering: the column named cls when there is one, else the
      last column when any is left (the class index stays -1 otherwise). */
  function WithClassIndex(d: Instances, cls: Option<string>): (r: Instances)
    requires Valid(d) && d.classIndex == -1
    ensures Valid(r) && r.attrs == d.attrs && r.rows == d.rows
    ensures cls.Some? && cls.value in Names(d.attrs) ==>
      0 <= r.classIndex && r.attrs[r.classIndex].name == cls.value
    ensures !(cls.Some? && cls.value in Names(d.attrs)) ==> r.classIndex == |d.attrs| - 1
  {
    var ci := if cls.Some? then IndexOf(Names(d.attrs), cls.value) else None;
    if ci.Some? then d.(classIndex := ci.value)
    else if |d.attrs| > 0 then d.(classIndex := |d.attrs| - 1)
    else d
  }
}
