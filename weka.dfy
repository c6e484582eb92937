/** The slice of Weka's data model that the runner touches: a dataset (weka.core.Instances)
    is a list of uniquely named attributes, a list of rows holding one cell per attribute,
    and a class index (-1 when no class is set). */
module Weka {
  import opened Wrappers
  import opened JavaText

  /** CSVLoader yields numeric attributes and nominal ones (text columns become nominal). */
  datatype AttrKind = Numeric | Nominal(values: seq<string>)

  datatype Attribute = Attribute(name: string, kind: AttrKind)

  /** A numeric cell keeps the text Java prints for its double (Double.toString);
      floating-point arithmetic itself is not modelled. */
  datatype Cell = Missing | Num(shown: string) | Label(text: string)

  type Row = seq<Cell>

  datatype Instances = Instances(attrs: seq<Attribute>, rows: seq<Row>, classIndex: int)

  function Names(attrs: seq<Attribute>): (r: seq<string>)
    ensures |r| == |attrs|
    ensures forall i :: 0 <= i < |attrs| ==> r[i] == attrs[i].name
  {
    seq(|attrs|, i requires 0 <= i < |attrs| => attrs[i].name)
  }

  predicate Distinct(names: seq<string>)
  {
    forall i, j :: 0 <= i < j < |names| ==> names[i] != names[j]
  }

  /** What an Instances object always satisfies: Weka refuses duplicate attribute
      names, the attribute count is a Java int, every row is as wide as the header,
      and the class index is -1 or a column. */
  predicate Valid(d: Instances)
  {
    && Distinct(Names(d.attrs))
    && |d.attrs| <= IntMax
    && (forall r :: 0 <= r < |d.rows| ==> |d.rows[r]| == |d.attrs|)
    && -1 <= d.classIndex < |d.attrs|
  }

  /** Instances.attribute(name): the position of the attribute so named, if any. */
  function IndexOf(names: seq<string>, name: string): (r: Option<nat>)
    ensures r.None? <==> name !in names
    ensures r.Some? ==> r.value < |names| && names[r.value] == name
    ensures r.Some? ==> forall j :: 0 <= j < r.value ==> names[j] != name
  {
    if names == [] then None
    else if names[0] == name then Some(0)
    else match IndexOf(names[1..], name)
      case None => None
      case Some(k) => Some(k + 1)
  }

  predicate StrictlyIncreasing(keep: seq<nat>)
  {
    forall i, j :: 0 <= i < j < |keep| ==> keep[i] < keep[j]
  }

  /** No position is listed twice. */
  predicate NoRepeats(keep: seq<nat>)
  {
    forall i, j :: 0 <= i < j < |keep| ==> keep[i] != keep[j]
  }

  /** The elements of xs at the positions at, in that order: the cells a filtered row keeps,
      and the rows a shuffle puts in each place. */
  function Pick<T>(xs: seq<T>, at: seq<nat>): (r: seq<T>)
    requires forall i :: 0 <= i < |at| ==> at[i] < |xs|
    ensures |r| == |at|
    ensures forall i :: 0 <= i < |at| ==> r[i] == xs[at[i]]
  {
    seq(|at|, i requires 0 <= i < |at| => xs[at[i]])
  }

  /** The Remove filter with an inverted selection: only the listed columns survive,
      in the order of the list (Weka's Range walks its list as given). The runner filters freshly loaded data only, whose
      class index is still unset, and so is the result's. */
  function Project(d: Instances, keep: seq<nat>): (r: Instances)
    requires Valid(d) && d.classIndex == -1
    requires NoRepeats(keep)
    requires forall i :: 0 <= i < |keep| ==> keep[i] < |d.attrs|
    ensures Valid(r) && r.classIndex == -1
    ensures |r.attrs| == |keep| && |r.rows| == |d.rows|
    ensures forall i :: 0 <= i < |keep| ==> r.attrs[i] == d.attrs[keep[i]]
    ensures forall k, i :: 0 <= k < |d.rows| && 0 <= i < |keep| ==> r.rows[k][i] == d.rows[k][keep[i]]
  {
    var attrs := seq(|keep|, i requires 0 <= i < |keep| => d.attrs[keep[i]]);
    var rows := seq(|d.rows|, k requires 0 <= k < |d.rows| => Pick(d.rows[k], keep));
    var r := Instances(attrs, rows, -1);
    DistinctBound(keep, |d.attrs|);
    assert Distinct(Names(attrs)) by {
      forall i, j | 0 <= i < j < |attrs| ensures Names(attrs)[i] != Names(attrs)[j] {
        if keep[i] < keep[j] {
          assert Names(d.attrs)[keep[i]] != Names(d.attrs)[keep[j]];
        } else {
          assert Names(d.attrs)[keep[j]] != Names(d.attrs)[keep[i]];
        }
      }
    }
    r
  }

  /** Repeat-free positions below n number at most n. */
  lemma {:induction false} DistinctBound(keep: seq<nat>, n: nat)
    requires NoRepeats(keep)
    requires forall i :: 0 <= i < |keep| ==> keep[i] < n
    ensures |keep| <= n
    decreases n
  {
    if keep != [] {
      assert n > 0 by { assert keep[0] < n; }
      if n - 1 in keep {
        var j :| 0 <= j < |keep| && keep[j] == n - 1;
        var rest := keep[..j] + keep[j + 1..];
        forall i | 0 <= i < |rest| ensures rest[i] < n - 1 {
          if i < j { assert rest[i] == keep[i]; } else { assert rest[i] == keep[i + 1]; }
        }
        forall a, b | 0 <= a < b < |rest| ensures rest[a] != rest[b] {
          var a' := if a < j then a else a + 1;
          var b' := if b < j then b else b + 1;
          assert rest[a] == keep[a'] && rest[b] == keep[b'];
        }
        DistinctBound(rest, n - 1);
      } else {
        DistinctBound(keep, n - 1);
      }
    }
  }

  lemma {:induction false} AtLeastIndex(keep: seq<nat>, i: nat)
    requires StrictlyIncreasing(keep) && i < |keep|
    ensures keep[i] >= i
  {
    if i > 0 { AtLeastIndex(keep, i - 1); }
  }

  /** Keeping every column in order changes nothing. */
  lemma ProjectAll(d: Instances, keep: seq<nat>)
    requires Valid(d) && d.classIndex == -1
    requires |keep| == |d.attrs|
    requires forall i :: 0 <= i < |keep| ==> keep[i] == i
    ensures Project(d, keep) == d
  {
    var r := Project(d, keep);
    assert r.attrs == d.attrs;
    forall k | 0 <= k < |d.rows| ensures r.rows[k] == d.rows[k] { }
    assert r.rows == d.rows;
  }
}
