/** WekaTrainer: reads the training parameters, selects the dataset's columns, picks the
    class attribute, and produces what `model.ser` and `metrics.json` record. Weka's own
    learning and evaluation are not modelled; their results enter as parameters. */
module WekaTrainer {
  import opened Wrappers
  import opened JavaText
  import opened Weka
  import opened ColumnSelection
  import opened Contract

  // ================================================================ fixNestedOptions

  const EuclideanOption: string := "-A weka.core.EuclideanDistance"
  const RangeOption: string := "-R first-last"
  const UnquotedDistance: string := "-A weka.core.EuclideanDistance -R first-last"
  /** The quoted form, written in two pieces so that the verifier can read its first characters. */
  const QuotedDistance: string := "-A \"weka.core.EuclideanDistance" + " -R first-last\""

  /** The end of the run of digits that starts at p. */
  function DigitRunEnd(s: string, p: nat): (q: nat)
    requires p <= |s|
    ensures p <= q <= |s|
    ensures q < |s| ==> !IsDigit(s[q])
    ensures p < q ==> IsDigit(s[p]) && IsDigit(s[q - 1])
    ensures AllDigits(s[p..q])
    decreases |s| - p
  {
    if p < |s| && IsDigit(s[p]) then
      var q := DigitRunEnd(s, p + 1);
      assert s[p..q] == [s[p]] + s[p + 1..q];
      q
    else p
  }

  /** A run of digits from p that stops at a non-digit ends there. */
  lemma DigitRunEndAt(s: string, p: nat, q: nat)
    requires p <= q < |s| && AllDigits(s[p..q]) && !IsDigit(s[q])
    ensures DigitRunEnd(s, p) == q
  {
  }

  /** An optional sign followed by a digit starts at i: what `(?![+-]?\d)` refuses. */
  predicate SignedDigitAt(s: string, i: nat)
  {
    || (i < |s| && IsDigit(s[i]))
    || (i + 1 < |s| && (s[i] == '+' || s[i] == '-') && IsDigit(s[i + 1]))
  }

  predicate IsExponentLetter(c: char) { c == 'E' || c == 'e' }

  /** Whether `(\d+\.\d+)[Ee](?![+-]?\d)` matches at p, and then the position of the
      exponent letter (the end of group 1). Both digit runs are greedy and a shorter run
      would be followed by a digit, so backtracking never yields another match. */
  function MatchAt(s: string, p: nat): (r: Option<nat>)
    requires p <= |s|
    ensures r.Some? ==> p < r.value < |s| && IsExponentLetter(s[r.value])
    ensures r.Some? ==> !SignedDigitAt(s, r.value + 1)
    ensures r.Some? ==> IsDigit(s[p]) && IsDigit(s[r.value - 1])
  {
    var q := DigitRunEnd(s, p);
    if q == p || q == |s| || s[q] != '.' then None
    else
      var e := DigitRunEnd(s, q + 1);
      if e == q + 1 || e == |s| || !IsExponentLetter(s[e]) then None
      else if SignedDigitAt(s, e + 1) then None
      else Some(e)
  }

  /** The pattern matches at p with its dot at q and its exponent letter at e. */
  predicate ExponentMatch(s: string, p: nat, q: nat, e: nat)
  {
    && p < q && q + 1 < e < |s|
    && AllDigits(s[p..q]) && s[q] == '.' && AllDigits(s[q + 1..e])
    && IsExponentLetter(s[e]) && !SignedDigitAt(s, e + 1)
  }

  /** The scanner finds exactly the matches of the pattern that start at p. */
  lemma MatchAtSpec(s: string, p: nat, e: nat)
    requires p <= |s|
    ensures MatchAt(s, p) == Some(e) <==> exists q: nat :: ExponentMatch(s, p, q, e)
  {
    if MatchAt(s, p) == Some(e) {
      MatchAtShape(s, p, e);
    }
    if exists q: nat :: ExponentMatch(s, p, q, e) {
      var q: nat :| ExponentMatch(s, p, q, e);
      ShapeMatchAt(s, p, q, e);
    }
  }

  lemma MatchAtShape(s: string, p: nat, e: nat)
    requires p <= |s| && MatchAt(s, p) == Some(e)
    ensures ExponentMatch(s, p, DigitRunEnd(s, p), e)
  {
  }

  lemma ShapeMatchAt(s: string, p: nat, q: nat, e: nat)
    requires ExponentMatch(s, p, q, e)
    ensures MatchAt(s, p) == Some(e)
  {
    DigitRunEndAt(s, p, q);
    DigitRunEndAt(s, q + 1, e);
  }

  /** `replaceAll` with the replacement `$1` from position p on: matches are searched
      left to right, each resumes after the previous one, and each match loses its
      exponent letter. */
  function StripFrom(s: string, p: nat): (r: string)
    requires p <= |s|
    ensures |r| <= |s| - p
    decreases |s| - p
  {
    if p == |s| then []
    else match MatchAt(s, p)
      case Some(e) => s[p..e] + StripFrom(s, e + 1)
      case None => [s[p]] + StripFrom(s, p + 1)
  }

  function StripIncompleteExponents(s: string): string
  {
    StripFrom(s, 0)
  }

  /** `fixNestedOptions`: null and empty pass through; the EuclideanDistance option is
      quoted when both of its parts occur; then incomplete exponents are stripped. */
  function FixNestedOptions(raw: Option<string>): (r: Option<string>)
    ensures raw.None? <==> r.None?
    ensures raw == Some("") ==> r == Some("")
  {
    match raw
    case None => None
    case Some(s) =>
      if s == [] then Some(s)
      else
        var quoted :=
          if Contains(s, EuclideanOption) && Contains(s, RangeOption)
          then Replace(s, UnquotedDistance, QuotedDistance)
          else s;
        Some(StripIncompleteExponents(quoted))
  }

  /** The options handed to the algorithm: "" when absent or JSON null, else the value
      after fixNestedOptions. */
  function TrainOptions(params: Params): string
  {
    match Optional(params, "options")
    case None => ""
    case Some(t) => FixNestedOptions(Some(t)).value
  }

  /** The text without its exponent letters. */
  function WithoutExponentLetters(s: string): (r: string)
    ensures |r| <= |s|
  {
    if s == [] then []
    else (if IsExponentLetter(s[0]) then [] else [s[0]]) + WithoutExponentLetters(s[1..])
  }

  lemma {:induction false} WithoutExponentLettersAppend(a: string, b: string)
    ensures WithoutExponentLetters(a + b) == WithoutExponentLetters(a) + WithoutExponentLetters(b)
  {
    if a == [] {
      assert a + b == b;
    } else {
      assert (a + b)[1..] == a[1..] + b;
      WithoutExponentLettersAppend(a[1..], b);
    }
  }

  /** Stripping removes exponent letters and nothing else: every other character
      survives, in order. */
  lemma {:induction false} StripKeepsOtherChars(s: string, p: nat)
    requires p <= |s|
    ensures WithoutExponentLetters(StripFrom(s, p)) == WithoutExponentLetters(s[p..])
    decreases |s| - p, 1
  {
    if p < |s| {
      if MatchAt(s, p).Some? {
        StripMatchKeeps(s, p);
      } else {
        StripSkipKeeps(s, p);
      }
    }
  }

  /** The induction step at a match. */
  lemma {:induction false} StripMatchKeeps(s: string, p: nat)
    requires p < |s| && MatchAt(s, p).Some?
    ensures WithoutExponentLetters(StripFrom(s, p)) == WithoutExponentLetters(s[p..])
    decreases |s| - p, 0
  {
    var e := MatchAt(s, p).value;
    StripKeepsOtherChars(s, e + 1);
    MatchStep(s, p, e);
  }

  /** The induction step where nothing matches. */
  lemma {:induction false} StripSkipKeeps(s: string, p: nat)
    requires p < |s| && MatchAt(s, p).None?
    ensures WithoutExponentLetters(StripFrom(s, p)) == WithoutExponentLetters(s[p..])
    decreases |s| - p, 0
  {
    StripKeepsOtherChars(s, p + 1);
    SkipStep(s, p);
  }

  /** A match drops its exponent letter in front of the stripped rest, which keeps the
      other characters. */
  lemma MatchStep(s: string, p: nat, e: nat)
    requires p < |s| && MatchAt(s, p) == Some(e)
    requires WithoutExponentLetters(StripFrom(s, e + 1)) == WithoutExponentLetters(s[e + 1..])
    ensures WithoutExponentLetters(StripFrom(s, p)) == WithoutExponentLetters(s[p..])
  {
    StripAtMatch(s, p, e);
    DropLetterKeeps(s, p, e, StripFrom(s, e + 1));
  }

  /** At a match, the search copies the text before the exponent letter and goes on after it. */
  lemma StripAtMatch(s: string, p: nat, e: nat)
    requires p < |s| && MatchAt(s, p) == Some(e)
    ensures e + 1 <= |s|
    ensures StripFrom(s, p) == s[p..e] + StripFrom(s, e + 1)
  {
    assert p < e < |s|;
  }

  /** Dropping the exponent letter at e in front of a rest that keeps the other characters
      after it keeps the other characters from p on. */
  lemma DropLetterKeeps(s: string, p: nat, e: nat, rest: string)
    requires p < e < |s| && IsExponentLetter(s[e])
    requires WithoutExponentLetters(rest) == WithoutExponentLetters(s[e + 1..])
    ensures WithoutExponentLetters(s[p..e] + rest) == WithoutExponentLetters(s[p..])
  {
    assert s[p..] == s[p..e] + ([s[e]] + s[e + 1..]);
    WithoutExponentLettersAppend(s[p..e], [s[e]] + s[e + 1..]);
    WithoutExponentLettersAppend([s[e]], s[e + 1..]);
    WithoutExponentLettersAppend(s[p..e], rest);
  }

  /** Where nothing matches, the search copies one character and goes on after it. */
  lemma StripAtSkip(s: string, p: nat)
    requires p < |s| && MatchAt(s, p).None?
    ensures StripFrom(s, p) == [s[p]] + StripFrom(s, p + 1)
  {
  }

  /** Where nothing matches, one character is copied in front of the stripped rest. */
  lemma SkipStep(s: string, p: nat)
    requires p < |s| && MatchAt(s, p).None?
    requires WithoutExponentLetters(StripFrom(s, p + 1)) == WithoutExponentLetters(s[p + 1..])
    ensures WithoutExponentLetters(StripFrom(s, p)) == WithoutExponentLetters(s[p..])
  {
    var rest := StripFrom(s, p + 1);
    StripAtSkip(s, p);
    assert s[p..] == [s[p]] + s[p + 1..];
    WithoutExponentLettersAppend([s[p]], s[p + 1..]);
    WithoutExponentLettersAppend([s[p]], rest);
  }

  /** Where the pattern matches nowhere, nothing changes. */
  lemma {:induction false} NoMatchUnchanged(s: string, p: nat)
    requires p <= |s|
    requires forall i :: p <= i < |s| ==> MatchAt(s, i).None?
    ensures StripFrom(s, p) == s[p..]
    decreases |s| - p
  {
    if p < |s| {
      StripAtSkip(s, p);
      NoMatchUnchanged(s, p + 1);
      assert s[p..] == [s[p]] + s[p + 1..];
    }
  }

  /** A match anywhere from p on shortens the text. */
  lemma {:induction false} MatchShortens(s: string, p: nat, i: nat)
    requires p <= i < |s| && MatchAt(s, i).Some?
    ensures |StripFrom(s, p)| < |s| - p
    decreases |s| - p
  {
    var m := MatchAt(s, p);
    if m.Some? {
      StripAtMatch(s, p, m.value);
    } else {
      assert p < i;
      MatchShortens(s, p + 1, i);
      StripAtSkip(s, p);
    }
  }

  /** The stripping leaves the text unchanged exactly when the pattern matches nowhere. */
  lemma StripUnchangedIff(s: string)
    ensures StripIncompleteExponents(s) == s <==> forall i :: 0 <= i < |s| ==> MatchAt(s, i).None?
  {
    if forall i :: 0 <= i < |s| ==> MatchAt(s, i).None? {
      NoMatchUnchanged(s, 0);
    } else {
      var i :| 0 <= i < |s| && MatchAt(s, i).Some?;
      MatchShortens(s, 0, i);
    }
  }

  predicate NoDigit(s: string)
  {
    forall i :: 0 <= i < |s| ==> !IsDigit(s[i])
  }

  lemma NoDigitAppend(a: string, b: string)
    requires NoDigit(a) && NoDigit(b)
    ensures NoDigit(a + b)
  {
    forall i | 0 <= i < |a + b| ensures !IsDigit((a + b)[i]) {
      if i >= |a| { assert (a + b)[i] == b[i - |a|]; }
    }
  }

  lemma QuotedDistancePieces()
    ensures NoDigit("-A \"weka") && NoDigit(".core.Eu") && NoDigit("clideanD")
    ensures NoDigit("istance ") && NoDigit("-R first") && NoDigit("-last\"")
  {
  }

  lemma QuotedDistanceNoDigit()
    ensures NoDigit(QuotedDistance)
  {
    QuotedDistancePieces();
    NoDigitAppend("-A \"weka", ".core.Eu");
    NoDigitAppend("clideanD", "istance ");
    NoDigitAppend("-R first", "-last\"");
    NoDigitAppend("-A \"weka.core.Eu", "clideanDistance ");
    NoDigitAppend("-A \"weka.core.EuclideanDistance ", "-R first-last\"");
  }

  /** A text without digits has no decimal to strip from. */
  lemma NoDigitsUnchanged(s: string)
    requires NoDigit(s)
    ensures StripIncompleteExponents(s) == s
  {
    forall i | 0 <= i < |s| ensures MatchAt(s, i).None? {
      assert DigitRunEnd(s, i) == i;
    }
    StripUnchangedIff(s);
  }

  /** b is what a ends with. */
  predicate EndsWith(a: string, b: string)
  {
    |b| <= |a| && a[|a| - |b|..] == b
  }

  lemma EndsWithPrepend(y: string, a: string, b: string)
    requires EndsWith(a, b)
    ensures EndsWith(y + a, b)
  {
    assert (y + a)[|y + a| - |b|..] == a[|a| - |b|..];
  }

  /** The scan from p0 comes to position i when no match it can meet on the way runs
      past i: its output ends with the output from i on. */
  lemma {:induction false} ScanReaches(s: string, p0: nat, i: nat)
    requires p0 <= i <= |s|
    requires forall p :: p0 <= p < i && MatchAt(s, p).Some? ==> MatchAt(s, p).value < i
    ensures EndsWith(StripFrom(s, p0), StripFrom(s, i))
    decreases i - p0
  {
    if p0 == i {
      assert StripFrom(s, i)[0..] == StripFrom(s, i);
    } else if MatchAt(s, p0).Some? {
      var e := MatchAt(s, p0).value;
      ScanReaches(s, e + 1, i);
      ScanOverMatch(s, p0, e, StripFrom(s, i));
    } else {
      ScanReaches(s, p0 + 1, i);
      ScanOverSkip(s, p0, StripFrom(s, i));
    }
  }

  lemma ScanOverMatch(s: string, p: nat, e: nat, tail: string)
    requires p < |s| && MatchAt(s, p) == Some(e)
    requires e + 1 <= |s| && EndsWith(StripFrom(s, e + 1), tail)
    ensures EndsWith(StripFrom(s, p), tail)
  {
    StripAtMatch(s, p, e);
    EndsWithPrepend(s[p..e], StripFrom(s, e + 1), tail);
  }

  lemma ScanOverSkip(s: string, p: nat, tail: string)
    requires p < |s| && MatchAt(s, p).None?
    requires EndsWith(StripFrom(s, p + 1), tail)
    ensures EndsWith(StripFrom(s, p), tail)
  {
    StripAtSkip(s, p);
    EndsWithPrepend([s[p]], StripFrom(s, p + 1), tail);
  }

  /** Inside a match, every position but the dot and the letter holds a digit. */
  lemma MatchCovers(s: string, p: nat, q: nat, e: nat, k: nat)
    requires ExponentMatch(s, p, q, e) && p <= k < e && k != q
    ensures IsDigit(s[k])
  {
    if k < q {
      assert s[p..q][k - p] == s[k];
    } else {
      assert s[q + 1..e][k - q - 1] == s[k];
    }
  }

  /** A position a match covers holds a digit or the dot, unless it is the match's letter. */
  lemma InsideMatch(s: string, p: nat, e: nat, k: nat)
    requires p <= |s| && MatchAt(s, p) == Some(e) && p <= k <= e
    ensures IsDigit(s[k]) || s[k] == '.' || k == e
  {
    var q := DigitRunEnd(s, p);
    MatchAtShape(s, p, e);
    if k != q && k < e {
      MatchCovers(s, p, q, e, k);
    }
  }

  /** The letter of an incomplete exponent after a maximal `\d+\.\d+` is dropped: the
      output goes on from the digits before it straight to the output after it. */
  lemma IncompleteExponentDropped(s: string, p: nat, e: nat)
    requires p <= |s| && MatchAt(s, p) == Some(e)
    requires p == 0 || !IsDigit(s[p - 1])
    ensures EndsWith(StripIncompleteExponents(s), s[p..e] + StripFrom(s, e + 1))
  {
    forall p' | 0 <= p' < p && MatchAt(s, p').Some? ensures MatchAt(s, p').value < p {
      var e' := MatchAt(s, p').value;
      MatchAtSpec(s, p', e');
      var q': nat :| ExponentMatch(s, p', q', e');
      if e' >= p {
        if p == q' + 1 {
          DigitRunEndAt(s, p, e');
        } else {
          MatchCovers(s, p', q', e', p - 1);
        }
        assert false;
      }
    }
    ScanReaches(s, 0, p);
    StripAtMatch(s, p, e);
  }

  /** An exponent letter followed by a signed digit, as in a complete exponent, is kept:
      the output goes on with it and then the output after it. */
  lemma ExponentLetterKept(s: string, i: nat)
    requires i < |s| && IsExponentLetter(s[i]) && SignedDigitAt(s, i + 1)
    ensures EndsWith(StripIncompleteExponents(s), [s[i]] + StripFrom(s, i + 1))
  {
    forall p' | 0 <= p' < i && MatchAt(s, p').Some? ensures MatchAt(s, p').value < i {
      var e' := MatchAt(s, p').value;
      if e' >= i {
        InsideMatch(s, p', e', i);
        assert false;
      }
    }
    ScanReaches(s, 0, i);
    StripAtSkip(s, i);
  }

  /** Where no digit occurs, the scan copies the text. */
  lemma {:induction false} CopyDigitFree(s: string, i: nat, n: nat)
    requires i + n <= |s| && NoDigit(s[i..i + n])
    ensures StripFrom(s, i) == s[i..i + n] + StripFrom(s, i + n)
    decreases n
  {
    if n == 0 {
      assert s[i..i] == [];
    } else {
      assert s[i..i + n][0] == s[i];
      assert MatchAt(s, i).None?;
      NoDigitTail(s, i, n);
      CopyDigitFree(s, i + 1, n - 1);
      CopyStep(s, i, n);
    }
  }

  lemma NoDigitTail(s: string, i: nat, n: nat)
    requires 0 < n && i + n <= |s| && NoDigit(s[i..i + n])
    ensures NoDigit(s[i + 1..i + n])
  {
    var r := s[i + 1..i + n];
    forall k | 0 <= k < |r| ensures !IsDigit(r[k]) {
      assert r[k] == s[i..i + n][k + 1];
    }
  }

  lemma CopyStep(s: string, i: nat, n: nat)
    requires 0 < n && i + n <= |s| && MatchAt(s, i).None?
    requires StripFrom(s, i + 1) == s[i + 1..i + n] + StripFrom(s, i + n)
    ensures StripFrom(s, i) == s[i..i + n] + StripFrom(s, i + n)
  {
    StripAtSkip(s, i);
    assert s[i..i + n] == [s[i]] + s[i + 1..i + n];
    Regroup([s[i]], s[i + 1..i + n], StripFrom(s, i + n), StripFrom(s, i));
  }

  lemma Regroup(a: string, b: string, c: string, x: string)
    requires x == a + (b + c)
    ensures x == (a + b) + c
  {
  }

  /** A text without digits that starts with neither a dot nor an exponent letter comes
      through the stripping whole. */
  lemma DigitFreeKept(s: string, i: nat, t: string)
    requires OccursAt(s, t, i) && t != [] && NoDigit(t)
    requires t[0] != '.' && !IsExponentLetter(t[0])
    ensures EndsWith(StripIncompleteExponents(s), t + StripFrom(s, i + |t|))
  {
    assert s[i] == t[0];
    forall p' | 0 <= p' < i && MatchAt(s, p').Some? ensures MatchAt(s, p').value < i {
      var e' := MatchAt(s, p').value;
      if e' >= i {
        InsideMatch(s, p', e', i);
        assert false;
      }
    }
    ScanReaches(s, 0, i);
    CopyDigitFree(s, i, |t|);
  }

  lemma EndsWithContains(a: string, t: string, b: string)
    requires EndsWith(a, t + b)
    ensures Contains(a, t)
  {
    var k := |a| - |t + b|;
    assert a[k..][..|t|] == a[k..k + |t|];
    assert OccursAt(a, t, k);
  }

  /** An occurrence inside an occurrence is an occurrence. */
  lemma OccursInside(s: string, t: string, i: nat, a: string, j: nat)
    requires OccursAt(s, t, i) && OccursAt(t, a, j)
    ensures OccursAt(s, a, i + j)
  {
    forall k | 0 <= k < |a| ensures s[i + j + k] == a[k] {
      assert a[k] == t[j..j + |a|][k] == t[j + k];
      assert t[j + k] == s[i..i + |t|][j + k];
    }
    assert s[i + j..i + j + |a|] == a;
  }

  /** An incomplete exponent loses its letter. */
  lemma StripIncompleteExample()
    ensures StripIncompleteExponents("1.0E") == "1.0"
  {
    var a := "1.0E";
    assert DigitRunEnd(a, 2) == 3;
    assert MatchAt(a, 0) == Some(3);
    assert StripFrom(a, 4) == [];
  }

  /** A complete exponent survives. */
  lemma StripCompleteExample()
    ensures StripIncompleteExponents("1.0E5") == "1.0E5"
  {
    var b := "1.0E5";
    forall i | 0 <= i < |b| ensures MatchAt(b, i).None? {
      if i == 0 { assert DigitRunEnd(b, 2) == 3 && SignedDigitAt(b, 4); }
      else if i == 4 { assert DigitRunEnd(b, 4) == 5; }
      else { assert DigitRunEnd(b, i) == i || b[DigitRunEnd(b, i)] != '.'; }
    }
    StripUnchangedIff(b);
  }

  /** A complete exponent with a sign survives. */
  lemma StripSignedExample()
    ensures StripIncompleteExponents("2.5e-3") == "2.5e-3"
  {
    var c := "2.5e-3";
    forall i | 0 <= i < |c| ensures MatchAt(c, i).None? {
      if i == 0 { assert DigitRunEnd(c, 2) == 3 && SignedDigitAt(c, 4); }
      else if i == 5 { assert DigitRunEnd(c, 5) == 6; }
      else { assert DigitRunEnd(c, i) == i || c[DigitRunEnd(c, i)] != '.'; }
    }
    StripUnchangedIff(c);
  }

  /** Absent or empty options pass through; text that lacks either part of the
      distance option is only stripped. */
  lemma FixNestedOptionsPlain(s: string)
    ensures FixNestedOptions(None) == None && FixNestedOptions(Some("")) == Some("")
    ensures s != "" && !Contains(s, EuclideanOption) ==>
      FixNestedOptions(Some(s)) == Some(StripIncompleteExponents(s))
    ensures s != "" && !Contains(s, RangeOption) ==>
      FixNestedOptions(Some(s)) == Some(StripIncompleteExponents(s))
    ensures s != "" && !Contains(s, UnquotedDistance) ==>
      FixNestedOptions(Some(s)) == Some(StripIncompleteExponents(s))
  {
  }

  /** The unquoted distance option comes out quoted, and nothing else changes. */
  lemma FixNestedOptionsQuotes()
    ensures FixNestedOptions(Some(UnquotedDistance)) == Some(QuotedDistance)
  {
    var u := UnquotedDistance;
    assert OccursAt(u, EuclideanOption, 0);
    assert OccursAt(u, RangeOption, 31);
    ReplaceWhole(u, QuotedDistance);
    QuotedDistanceNoDigit();
    NoDigitsUnchanged(QuotedDistance);
  }

  /** Wherever the unquoted distance option occurs, the fixed options hold it quoted. */
  lemma FixNestedOptionsQuotesInside(s: string)
    requires Contains(s, UnquotedDistance)
    ensures Contains(FixNestedOptions(Some(s)).value, QuotedDistance)
  {
    var i: nat :| OccursAt(s, UnquotedDistance, i);
    assert OccursAt(UnquotedDistance, EuclideanOption, 0);
    assert OccursAt(UnquotedDistance, RangeOption, 31);
    OccursInside(s, UnquotedDistance, i, EuclideanOption, 0);
    OccursInside(s, UnquotedDistance, i, RangeOption, 31);
    var quoted := Replace(s, UnquotedDistance, QuotedDistance);
    ReplaceEmits(s, UnquotedDistance, QuotedDistance);
    var k: nat :| OccursAt(quoted, QuotedDistance, k);
    QuotedDistanceNoDigit();
    assert QuotedDistance[0] == '-';
    DigitFreeKept(quoted, k, QuotedDistance);
    EndsWithContains(StripIncompleteExponents(quoted), QuotedDistance, StripFrom(quoted, k + |QuotedDistance|));
  }

  // ================================================================ selectColumns

  /** How training resolves `targetColumn`: a number names its 1-based column when in
      range and nothing otherwise; text that is not an int is taken as a column name. */
  function TrainTargetName(names: seq<string>, target: Option<string>): Option<string>
    requires |names| <= IntMax
  {
    if target.None? || target.value == "" then None
    else TrainTargetOf(names, target.value, ParseEntry(target.value))
  }

  /** The resolution once `Integer.parseInt(targetColumn.trim())` has run. */
  function TrainTargetOf(names: seq<string>, raw: string, e: Entry): Option<string>
    requires |names| <= IntMax
    requires e.value.Some? ==> InIntRange(e.value.value)
  {
    match e.value
    case None => Some(raw)
    case Some(v) =>
      var idx := Dec32(v);
      if 0 <= idx < |names| then Some(names[idx]) else None
  }

  /** A name resolves to itself, and a number to the column it denotes, or to nothing
      when it denotes none. */
  lemma TrainTargetOfSpec(names: seq<string>, raw: string, e: Entry)
    requires |names| <= IntMax
    requires e.value.Some? ==> InIntRange(e.value.value)
    ensures Malformed(e) ==> TrainTargetOf(names, raw, e) == Some(raw)
    ensures forall k :: 0 <= k < |names| && Denotes(e, k) ==> TrainTargetOf(names, raw, e) == Some(names[k])
    ensures (!Malformed(e) && forall k :: 0 <= k < |names| ==> !Denotes(e, k)) ==>
      TrainTargetOf(names, raw, e).None?
  {
    if e.value.Some? && e.value.value != IntMin {
      var idx := e.value.value - 1;
      assert Dec32(e.value.value) == idx;
      if 0 <= idx < |names| {
        assert Denotes(e, idx);
      }
    }
  }

  /** The names training keeps: those the list selects, plus the target when the dataset
      has such a column and the list left it out. */
  function TrainColumnNames(names: seq<string>, chosen: seq<string>, cls: Option<string>): seq<string>
  {
    if cls.Some? && cls.value in names && cls.value !in chosen then chosen + [cls.value] else chosen
  }

  /** `selectColumns` of the trainer, as a function of the freshly loaded dataset. */
  function SelectForTraining(d: Instances, basic: Option<string>, target: Option<string>): Result<Instances>
    requires Valid(d) && d.classIndex == -1
  {
    SelectWithClass(d, basic, TrainTargetName(Names(d.attrs), target))
  }

  /** The selection once the target's name is resolved to cls. */
  function SelectWithClass(d: Instances, basic: Option<string>, cls: Option<string>): Result<Instances>
    requires Valid(d) && d.classIndex == -1
  {
    var names := Names(d.attrs);
    match SelectedNames(names, basic)
    case Err(e) => Err(e)
    case Ok(chosen) => Ok(Narrow(d, TrainColumnNames(names, chosen, cls), cls))
  }

  /** Keep the named columns, in the dataset's order, then set the class. */
  function Narrow(d: Instances, columns: seq<string>, cls: Option<string>): Instances
    requires Valid(d) && d.classIndex == -1
  {
    var keep := IndicesNamed(Names(d.attrs), columns);
    KeepColumnsKeeps(d, keep);
    WithClassIndex(KeepColumns(d, keep), cls)
  }

  /** Loop-and-filter form of the source: resolve the target, collect the names, add the
      target, turn the names into positions, filter when something is dropped, then set
      the class. */
  method SelectColumns(d: Instances, basic: Option<string>, target: Option<string>)
    returns (r: Result<Instances>)
    requires Valid(d) && d.classIndex == -1
    ensures r == SelectForTraining(d, basic, target)
  {
    var cls := TrainTargetName(Names(d.attrs), target);
    r := SelectNamed(d, basic, cls);
  }

  method SelectNamed(d: Instances, basic: Option<string>, cls: Option<string>)
    returns (r: Result<Instances>)
    requires Valid(d) && d.classIndex == -1
    ensures r == SelectWithClass(d, basic, cls)
  {
    var names := Names(d.attrs);
    var chosen := CollectColumnNames(names, basic);
    if chosen.Err? {
      return Err(chosen.error);
    }
    var columns := chosen.value;
    if cls.Some? && IndexOf(names, cls.value).Some? && cls.value !in columns {
      columns := columns + [cls.value];
    }
    var data := NarrowColumns(d, columns, cls);
    return Ok(data);
  }

  /** The filtering and class-setting steps of `selectColumns`. */
  method NarrowColumns(d: Instances, columns: seq<string>, cls: Option<string>) returns (data: Instances)
    requires Valid(d) && d.classIndex == -1
    ensures data == Narrow(d, columns, cls)
  {
    var names := Names(d.attrs);
    var keep := IndicesToKeep(names, columns);
    data := d;
    if |keep| < |d.attrs| {
      data := Project(d, keep);
    }
    if cls.Some? {
      var ci := IndexOf(Names(data.attrs), cls.value);
      if ci.Some? {
        data := data.(classIndex := ci.value);
      }
    }
    if data.classIndex < 0 && |data.attrs| > 0 {
      data := data.(classIndex := |data.attrs| - 1);
    }
  }

  /** Selection fails exactly when the list is given and one of its entries is not an
      int, and then with the first such entry. */
  lemma SelectWithClassFails(d: Instances, basic: Option<string>, cls: Option<string>)
    requires Valid(d) && d.classIndex == -1
    ensures SelectWithClass(d, basic, cls).Err? <==>
      basic.Some? && basic.value != "" &&
      (var es := Entries(Split(basic.value)); exists j :: 0 <= j < |es| && Malformed(es[j]))
  {
    SelectedNamesSpec(Names(d.attrs), basic);
  }

  /** The kept columns are, in the dataset's own order, exactly those the list selects
      plus the target, and every row is kept. */
  lemma SelectWithClassColumns(d: Instances, basic: Option<string>, cls: Option<string>)
    requires Valid(d) && d.classIndex == -1
    ensures var r := SelectWithClass(d, basic, cls);
      r.Ok? ==> Valid(r.value) && exists keep :: (KeptInOrder(d, r.value, keep) &&
        forall k :: 0 <= k < |d.attrs| ==>
          (k in keep <==> ListSelects(basic, k) || cls == Some(d.attrs[k].name)))
  {
    var names := Names(d.attrs);
    var r := SelectWithClass(d, basic, cls);
    if r.Ok? {
      SelectedNamesSpec(names, basic);
      var chosen := SelectedNames(names, basic).value;
      var keep := IndicesNamed(names, TrainColumnNames(names, chosen, cls));
      KeepColumnsKeeps(d, keep);
      assert r.value == Narrow(d, TrainColumnNames(names, chosen, cls), cls);
      assert KeptInOrder(d, r.value, keep);
      forall k | 0 <= k < |d.attrs|
        ensures k in keep <==> ListSelects(basic, k) || cls == Some(d.attrs[k].name)
      {
        assert names[k] == d.attrs[k].name;
      }
    }
  }

  /** The class is the target's column when the dataset has it, and otherwise the last
      kept column (none when no column is kept). */
  lemma SelectWithClassClass(d: Instances, basic: Option<string>, cls: Option<string>)
    requires Valid(d) && d.classIndex == -1
    ensures var r := SelectWithClass(d, basic, cls);
      && (r.Ok? && cls.Some? && cls.value in Names(d.attrs) ==>
            0 <= r.value.classIndex && r.value.attrs[r.value.classIndex].name == cls.value)
      && (r.Ok? && !(cls.Some? && cls.value in Names(d.attrs)) ==>
            r.value.classIndex == |r.value.attrs| - 1)
  {
    var names := Names(d.attrs);
    if SelectedNames(names, basic).Ok? {
      var chosen := SelectedNames(names, basic).value;
      NarrowClass(d, TrainColumnNames(names, chosen, cls), cls);
    }
  }

  /** Narrowing to columns that include the target's keeps it as the class. */
  lemma NarrowClass(d: Instances, columns: seq<string>, cls: Option<string>)
    requires Valid(d) && d.classIndex == -1
    requires cls.Some? && cls.value in Names(d.attrs) ==> cls.value in columns
    ensures var r := Narrow(d, columns, cls);
      && (cls.Some? && cls.value in Names(d.attrs) ==>
            0 <= r.classIndex && r.attrs[r.classIndex].name == cls.value)
      && (!(cls.Some? && cls.value in Names(d.attrs)) ==> r.classIndex == |r.attrs| - 1)
  {
    var names := Names(d.attrs);
    var keep := IndicesNamed(names, columns);
    var f := KeepColumns(d, keep);
    KeepColumnsKeeps(d, keep);
    if cls.Some? && cls.value in names {
      var k :| 0 <= k < |names| && names[k] == cls.value;
      assert k in keep;
      var i :| 0 <= i < |keep| && keep[i] == k;
      assert Names(f.attrs)[i] == cls.value;
    } else {
      forall i | 0 <= i < |f.attrs| ensures Names(f.attrs)[i] in names {
        assert Names(f.attrs)[i] == names[keep[i]];
      }
    }
  }

  // ================================================================ randomize and split

  function Range(n: nat): (r: seq<nat>)
    ensures |r| == n && forall i :: 0 <= i < n ==> r[i] == i
  {
    if n == 0 then [] else Range(n - 1) + [n - 1]
  }

  /** perm lists every position below n exactly once. `data.randomize(new Random(1))`
      yields Pick(rows, perm) for the permutation the seeded generator produces. */
  predicate IsPermutation(perm: seq<nat>, n: nat)
  {
    && |perm| == n
    && (forall i :: 0 <= i < |perm| ==> perm[i] < n)
    && multiset(perm) == multiset(Range(n))
  }

  /** q with position j taken out. */
  function Without(q: seq<nat>, j: nat): (r: seq<nat>)
    requires j < |q|
    ensures |r| == |q| - 1
    ensures forall i :: 0 <= i < j ==> r[i] == q[i]
    ensures forall i :: j <= i < |r| ==> r[i] == q[i + 1]
  {
    q[..j] + q[j + 1..]
  }

  /** Taking out position j removes one copy of q[j]. */
  lemma WithoutMultiset(q: seq<nat>, j: nat)
    requires j < |q|
    ensures multiset(Without(q, j)) == multiset(q) - multiset{q[j]}
  {
    assert q == q[..j] + [q[j]] + q[j + 1..];
  }

  /** Picking by q without position j yields the rows of q's pick but one copy of the
      row at q[j]. */
  lemma PickWithout<T>(rows: seq<T>, q: seq<nat>, j: nat)
    requires j < |q| && forall i :: 0 <= i < |q| ==> q[i] < |rows|
    ensures forall i :: 0 <= i < |Without(q, j)| ==> Without(q, j)[i] < |rows|
    ensures multiset(Pick(rows, Without(q, j))) == multiset(Pick(rows, q)) - multiset{rows[q[j]]}
  {
    var r := Pick(rows, q);
    var w := Pick(rows, Without(q, j));
    assert r == r[..j] + [r[j]] + r[j + 1..];
    assert w == r[..j] + r[j + 1..];
  }

  lemma CancelOne<T>(a: multiset<T>, b: multiset<T>, x: T)
    requires x in a && x in b && a - multiset{x} == b - multiset{x}
    ensures a == b
  {
    assert a == (a - multiset{x}) + multiset{x};
    assert b == (b - multiset{x}) + multiset{x};
  }

  /** Which rows a pick yields, counted with multiplicity, depends only on the positions
      picked, counted with multiplicity. */
  lemma {:induction false} PickMultiset<T>(rows: seq<T>, p: seq<nat>, q: seq<nat>)
    requires forall i :: 0 <= i < |p| ==> p[i] < |rows|
    requires forall i :: 0 <= i < |q| ==> q[i] < |rows|
    requires multiset(p) == multiset(q)
    ensures multiset(Pick(rows, p)) == multiset(Pick(rows, q))
    decreases |p|
  {
    if p != [] {
      assert p[0] in multiset(q);
      var j :| 0 <= j < |q| && q[j] == p[0];
      WithoutMultiset(q, j);
      WithoutMultiset(p, 0);
      PickWithout(rows, q, j);
      PickWithout(rows, p, 0);
      PickMultiset(rows, Without(p, 0), Without(q, j));
      assert Pick(rows, p)[0] == rows[p[0]] == Pick(rows, q)[j];
      CancelOne(multiset(Pick(rows, p)), multiset(Pick(rows, q)), rows[p[0]]);
    }
  }

  /** The train and test sets: `new Instances(data, 0, trainSize)` and
      `new Instances(data, trainSize, n - trainSize)`. */
  function TrainPart<T>(rows: seq<T>, trainSize: nat): seq<T>
    requires trainSize <= |rows|
  {
    rows[..trainSize]
  }

  function TestPart<T>(rows: seq<T>, trainSize: nat): seq<T>
    requires trainSize <= |rows|
  {
    rows[trainSize..]
  }

  /** Train and test set are the two contiguous halves of the shuffled rows, so together
      they hold every row of the dataset exactly once. */
  lemma SplitCoversEveryRow<T>(rows: seq<T>, perm: seq<nat>, trainSize: nat)
    requires IsPermutation(perm, |rows|) && trainSize <= |rows|
    ensures var shuffled := Pick(rows, perm);
      && TrainPart(shuffled, trainSize) + TestPart(shuffled, trainSize) == shuffled
      && |TrainPart(shuffled, trainSize)| == trainSize
      && multiset(TrainPart(shuffled, trainSize)) + multiset(TestPart(shuffled, trainSize)) == multiset(rows)
  {
    var shuffled := Pick(rows, perm);
    var ident := Range(|rows|);
    PickMultiset(rows, perm, ident);
    assert Pick(rows, ident) == rows;
    assert shuffled == TrainPart(shuffled, trainSize) + TestPart(shuffled, trainSize);
  }

  // ================================================================ metrics

  /** The cells of column j. */
  function Column(d: Instances, j: nat): (r: seq<Cell>)
    requires Valid(d) && j < |d.attrs|
    ensures |r| == |d.rows| && forall k :: 0 <= k < |d.rows| ==> r[k] == d.rows[k][j]
  {
    seq(|d.rows|, k requires 0 <= k < |d.rows| => d.rows[k][j])
  }

  /** The values of the class attribute the classifier is trained on: a nominal class
      keeps its own, and a numeric one is first turned nominal by NumericToNominal, whose
      value list for the class column is given by toNominal. */
  function ClassValues(d: Instances, toNominal: seq<Cell> -> seq<string>): seq<string>
    requires Valid(d) && 0 <= d.classIndex
  {
    match d.attrs[d.classIndex].kind
    case Nominal(vs) => vs
    case Numeric => toNominal(Column(d, d.classIndex))
  }

  /** A cell of the class column after NumericToNominal: a number becomes the label that
      stands for it, and a missing value stays missing. */
  function AsLabel(c: Cell, labelOf: string -> string): Cell
  {
    match c
    case Num(t) => Label(labelOf(t))
    case _ => c
  }

  /** NumericToNominal on the class column: a numeric class becomes a nominal attribute
      with the values ClassValues lists and every number in it becomes its label; a
      nominal class is left as it is. The other columns never change. */
  function NominalClass(d: Instances, toNominal: seq<Cell> -> seq<string>, labelOf: string -> string): (r: Instances)
    requires Valid(d) && 0 <= d.classIndex
    ensures Valid(r) && r.classIndex == d.classIndex && |r.rows| == |d.rows|
    ensures Names(r.attrs) == Names(d.attrs)
    ensures r.attrs[r.classIndex].kind == Nominal(ClassValues(d, toNominal))
    ensures d.attrs[d.classIndex].kind.Nominal? ==> r == d
    ensures forall k, j :: 0 <= k < |d.rows| && 0 <= j < |d.attrs| && j != d.classIndex ==>
      r.rows[k][j] == d.rows[k][j]
    ensures d.attrs[d.classIndex].kind.Numeric? ==>
      forall k :: 0 <= k < |d.rows| ==> r.rows[k][d.classIndex] == AsLabel(d.rows[k][d.classIndex], labelOf)
  {
    var c := d.classIndex;
    if d.attrs[c].kind.Nominal? then d
    else
      var attr := Attribute(d.attrs[c].name, Nominal(ClassValues(d, toNominal)));
      var rows := seq(|d.rows|, k requires 0 <= k < |d.rows| => d.rows[k][c := AsLabel(d.rows[k][c], labelOf)]);
      var r := Instances(d.attrs[c := attr], rows, c);
      assert Names(r.attrs) == Names(d.attrs);
      r
  }

  /** The data a supervised learner is split from: classification first turns a numeric
      class nominal, regression uses the data as selected. */
  function Fitted(kind: AlgorithmType, d: Instances, w: WekaRun): (r: Instances)
    requires Valid(d) && 0 <= d.classIndex
    ensures |r.rows| == |d.rows|
  {
    if kind == Classification then NominalClass(d, w.toNominal, w.nominalLabel) else d
  }

  /** Loop of the source: `classLabels` holds value(i) for every class index i. */
  method CollectClassLabels(values: seq<string>) returns (labels: seq<string>)
    ensures |labels| == |values|
    ensures forall i :: 0 <= i < |values| ==> labels[i] == values[i]
  {
    labels := [];
    var i := 0;
    while i < |values|
      invariant 0 <= i <= |values|
      invariant labels == values[..i]
    {
      labels := labels + [values[i]];
      i := i + 1;
    }
  }

  const AssignmentPrefix: string := "Instance "
  const AssignmentInfix: string := " assigned to cluster "

  /** The `clusterAssignments` entry for instance i placed in cluster c. */
  function AssignmentLine(i: int, c: int): string
  {
    AssignmentPrefix + IntToString(i) + AssignmentInfix + IntToString(c)
  }

  /** Loop of the source: one entry per instance, in instance order. */
  method CollectAssignments(assignments: seq<int>) returns (lines: seq<string>)
    ensures |lines| == |assignments|
    ensures forall i :: 0 <= i < |assignments| ==> lines[i] == AssignmentLine(i, assignments[i])
  {
    lines := [];
    var i := 0;
    while i < |assignments|
      invariant 0 <= i <= |assignments|
      invariant |lines| == i
      invariant forall j :: 0 <= j < i ==> lines[j] == AssignmentLine(j, assignments[j])
    {
      lines := lines + [AssignmentLine(i, assignments[i])];
      i := i + 1;
    }
  }

  /** The length of the longest space-free prefix. */
  function FirstSpace(s: string): (k: nat)
    ensures k <= |s| && (k < |s| ==> s[k] == ' ')
    ensures forall j :: 0 <= j < k ==> s[j] != ' '
  {
    if s == [] || s[0] == ' ' then 0 else 1 + FirstSpace(s[1..])
  }

  /** Reads an assignment entry back into the instance and the cluster. */
  function ParseAssignment(line: string): Option<(int, int)>
  {
    var n := |AssignmentPrefix|;
    if |line| < n || line[..n] != AssignmentPrefix then None
    else
      var rest := line[n..];
      var k := FirstSpace(rest);
      var tail := rest[k..];
      var m := |AssignmentInfix|;
      if |tail| < m || tail[..m] != AssignmentInfix then None
      else BothInts(rest[..k], tail[m..])
  }

  function BothInts(a: string, b: string): Option<(int, int)>
  {
    match (ParseInt(a), ParseInt(b))
    case (Some(i), Some(c)) => Some((i, c))
    case _ => None
  }

  lemma NoSpaceInInt(i: int)
    ensures forall j :: 0 <= j < |IntToString(i)| ==> IntToString(i)[j] != ' '
  {
    if i < 0 {
      var t := NatToString(-i);
      assert IntToString(i) == "-" + t;
      assert forall j :: 1 <= j < |IntToString(i)| ==> IntToString(i)[j] == t[j - 1];
    }
  }

  lemma {:induction false} FirstSpaceAppend(a: string, b: string)
    requires forall j :: 0 <= j < |a| ==> a[j] != ' '
    requires b != [] && b[0] == ' '
    ensures FirstSpace(a + b) == |a|
    decreases |a|
  {
    if a == [] {
      assert a + b == b;
    } else {
      assert (a + b)[0] == a[0];
      assert (a + b)[1..] == a[1..] + b;
      FirstSpaceAppend(a[1..], b);
    }
  }

  /** An entry built around two space-free numbers is read as those two numbers. */
  lemma ParseAssignmentSplits(a: string, b: string)
    requires forall j :: 0 <= j < |a| ==> a[j] != ' '
    ensures ParseAssignment(AssignmentPrefix + a + AssignmentInfix + b) == BothInts(a, b)
  {
    var line := AssignmentPrefix + a + AssignmentInfix + b;
    var n, m := |AssignmentPrefix|, |AssignmentInfix|;
    assert line == AssignmentPrefix + (a + (AssignmentInfix + b));
    assert line[..n] == AssignmentPrefix;
    var rest := line[n..];
    assert rest == a + (AssignmentInfix + b);
    FirstSpaceAppend(a, AssignmentInfix + b);
    assert rest[..|a|] == a;
    var tail := rest[|a|..];
    assert tail == AssignmentInfix + b;
    assert tail[..m] == AssignmentInfix && tail[m..] == b;
  }

  /** Every assignment entry reads back as the instance and cluster it was written for. */
  lemma ParseAssignmentLine(i: int, c: int)
    requires InIntRange(i) && InIntRange(c)
    ensures ParseAssignment(AssignmentLine(i, c)) == Some((i, c))
  {
    NoSpaceInInt(i);
    ParseAssignmentSplits(IntToString(i), IntToString(c));
    ParseIntToString(i);
    ParseIntToString(c);
  }

  /** Entries for different instances differ. */
  lemma AssignmentLinesDistinct(i: int, j: int, c: int, e: int)
    requires InIntRange(i) && InIntRange(j) && InIntRange(c) && InIntRange(e)
    requires i != j
    ensures AssignmentLine(i, c) != AssignmentLine(j, e)
  {
    ParseAssignmentLine(i, c);
    ParseAssignmentLine(j, e);
  }

  // ================================================================ train

  /** What Weka computes and the model takes as given: the value list NumericToNominal
      derives from a numeric class column and the label it gives each number, the row order `randomize(new Random(1))`
      produces, the 70% cut, and the clusterer's assignments and cluster count. */
  datatype WekaRun = WekaRun(
    toNominal: seq<Cell> -> seq<string>,
    nominalLabel: string -> string,
    perm: seq<nat>,
    trainSize: nat,
    assignments: seq<int>,
    numClusters: int)

  /** The shuffle, the cut and the cluster assignments fit a dataset of n rows. */
  predicate Fits(w: WekaRun, n: nat)
  {
    IsPermutation(w.perm, n) && w.trainSize <= n && |w.assignments| == n
  }

  datatype Metrics =
    | ClassificationMetrics(classLabels: seq<string>)
    | RegressionMetrics
    | ClusteringMetrics(numClusters: int, clusterAssignments: seq<string>)

  /** How the data reaches the learner: the supervised kinds train on the first part of
      the shuffled rows and are evaluated on the rest; a clusterer sees every row. */
  datatype Fit = TrainTest(train: seq<Row>, test: seq<Row>) | Whole

  /** What `model.ser` and `metrics.json` record. */
  datatype Trained = Trained(
    algorithm: string,
    kind: AlgorithmType,
    options: string,
    data: Instances,
    fit: Fit,
    metrics: Metrics)

  /** The text of a parameter that is known to be present. */
  function Text(params: Params, key: string): string
  {
    match Required(params, key)
    case Ok(t) => t
    case Err(_) => ""
  }

  /** The dataset after column selection, with the class unset for clustering. */
  function Prepared(d: Instances, params: Params, algorithmType: string): (r: Result<Instances>)
    requires Valid(d) && d.classIndex == -1
    ensures r.Ok? ==> Valid(r.value) && |r.value.rows| == |d.rows|
    ensures r.Ok? && IsClustering(algorithmType) ==> r.value.classIndex == -1
  {
    var basic, target := Optional(params, "basicAttributesColumns"), Optional(params, "targetColumn");
    SelectWithClassColumns(d, basic, TrainTargetName(Names(d.attrs), target));
    match SelectForTraining(d, basic, target)
    case Err(e) => Err(e)
    case Ok(s) => Ok(if IsClustering(algorithmType) then s.(classIndex := -1) else s)
  }

  /** params.json is present and names the algorithm and its type. */
  predicate ParamsRead(files: Files, params: Params)
  {
    "params.json" in files && "algorithmClassName" in params && "algorithmType" in params
  }

  /** ...and dataset.csv is present too. */
  predicate InputsRead(files: Files, params: Params)
  {
    ParamsRead(files, params) && "dataset.csv" in files
  }

  /** When `train()` gets through: both files are there, the parameters are given, the
      columns can be selected, the type is known, and a supervised kind has a class. */
  predicate TrainSucceeds(files: Files, params: Params, dataset: Instances)
    requires Valid(dataset) && dataset.classIndex == -1
  {
    && InputsRead(files, params)
    && var p := Prepared(dataset, params, Text(params, "algorithmType"));
       var k := ParseAlgorithmType(Text(params, "algorithmType"));
       p.Ok? && k.Ok? && (k.value == Clustering || 0 <= p.value.classIndex)
  }

  /** `train()`: every failure is a Java exception that leaves no output behind, raised
      in the order the source checks; on success the result holds the algorithm, its
      fixed options, the selected data, how it was split and the metrics. */
  method Train(files: Files, params: Params, dataset: Instances, w: WekaRun)
    returns (r: Result<Trained>)
    requires Valid(dataset) && dataset.classIndex == -1 && Fits(w, |dataset.rows|)
    ensures "params.json" !in files ==> r == Err(MissingFile("params.json"))
    ensures "params.json" in files && "algorithmClassName" !in params ==>
      r == Err(MissingParam("algorithmClassName"))
    ensures "params.json" in files && "algorithmClassName" in params && "algorithmType" !in params ==>
      r == Err(MissingParam("algorithmType"))
    ensures ParamsRead(files, params) && "dataset.csv" !in files ==> r == Err(MissingFile("dataset.csv"))
    ensures r.Ok? <==> TrainSucceeds(files, params, dataset)
    ensures InputsRead(files, params) ==>
      var p := Prepared(dataset, params, Text(params, "algorithmType"));
      && (p.Err? ==> r == Err(p.error))
      && (p.Ok? && ParseAlgorithmType(Text(params, "algorithmType")).Err? ==>
            r == Err(UnknownAlgorithmType(Text(params, "algorithmType"))))
      && (p.Ok? && ParseAlgorithmType(Text(params, "algorithmType")).Ok? &&
          ParseAlgorithmType(Text(params, "algorithmType")).value != Clustering && p.value.classIndex < 0 ==>
            r == Err(UnassignedClass))
    ensures r.Ok? ==>
      && InputsRead(files, params)
      && Prepared(dataset, params, Text(params, "algorithmType")) == Ok(r.value.data)
      && ParseAlgorithmType(Text(params, "algorithmType")) == Ok(r.value.kind)
      && r.value.algorithm == Text(params, "algorithmClassName")
      && r.value.options == TrainOptions(params)
    ensures r.Ok? && r.value.kind != Clustering ==>
      && 0 <= r.value.data.classIndex
      && |r.value.data.rows| == |w.perm|
      && var rows := Pick(Fitted(r.value.kind, r.value.data, w).rows, w.perm);
         r.value.fit == TrainTest(TrainPart(rows, w.trainSize), TestPart(rows, w.trainSize))
    ensures r.Ok? && r.value.kind == Classification ==>
      r.value.metrics == ClassificationMetrics(ClassValues(r.value.data, w.toNominal))
    ensures r.Ok? && r.value.kind == Regression ==> r.value.metrics == RegressionMetrics
    ensures r.Ok? && r.value.kind == Clustering ==>
      && r.value.data.classIndex == -1
      && r.value.fit == Whole
      && r.value.metrics.ClusteringMetrics?
      && r.value.metrics.numClusters == w.numClusters
      && |r.value.metrics.clusterAssignments| == |r.value.data.rows| == |dataset.rows|
      && (forall i :: 0 <= i < |w.assignments| ==>
            r.value.metrics.clusterAssignments[i] == AssignmentLine(i, w.assignments[i]))
  {
    if "params.json" !in files {
      return Err(MissingFile("params.json"));
    }
    var algorithm :- Required(params, "algorithmClassName");
    var algorithmType :- Required(params, "algorithmType");
    var options := TrainOptions(params);
    if "dataset.csv" !in files {
      return Err(MissingFile("dataset.csv"));
    }
    var data :- PrepareData(dataset, params, algorithmType);
    var kind :- ParseAlgorithmType(algorithmType);
    r := Learn(algorithm, kind, options, data, w);
  }

  /** Step 2b and 3 of the source: select the columns, then unset the class for
      clustering. */
  method PrepareData(dataset: Instances, params: Params, algorithmType: string)
    returns (r: Result<Instances>)
    requires Valid(dataset) && dataset.classIndex == -1
    ensures r == Prepared(dataset, params, algorithmType)
  {
    var target := Optional(params, "targetColumn");
    var basic := Optional(params, "basicAttributesColumns");
    var data :- SelectColumns(dataset, basic, target);
    if IsClustering(algorithmType) {
      data := data.(classIndex := -1);
    }
    r := Ok(data);
  }

  /** Step 4 of the source: the dispatch on the algorithm type. A classifier or
      regressor without a class attribute fails in Weka. */
  method Learn(algorithm: string, kind: AlgorithmType, options: string, data: Instances, w: WekaRun)
    returns (r: Result<Trained>)
    requires Valid(data) && Fits(w, |data.rows|)
    requires kind == Clustering ==> data.classIndex == -1
    ensures r.Err? <==> kind != Clustering && data.classIndex < 0
    ensures r.Err? ==> r.error == UnassignedClass
    ensures r.Ok? ==>
      && r.value.algorithm == algorithm && r.value.kind == kind
      && r.value.options == options && r.value.data == data
    ensures r.Ok? && kind != Clustering ==>
      var rows := Pick(Fitted(kind, data, w).rows, w.perm);
      r.value.fit == TrainTest(TrainPart(rows, w.trainSize), TestPart(rows, w.trainSize))
    ensures r.Ok? && kind == Classification ==>
      r.value.metrics == ClassificationMetrics(ClassValues(data, w.toNominal))
    ensures r.Ok? && kind == Regression ==> r.value.metrics == RegressionMetrics
    ensures r.Ok? && kind == Clustering ==>
      && r.value.fit == Whole
      && r.value.metrics.ClusteringMetrics?
      && r.value.metrics.numClusters == w.numClusters
      && |r.value.metrics.clusterAssignments| == |data.rows|
      && (forall i :: 0 <= i < |w.assignments| ==>
            r.value.metrics.clusterAssignments[i] == AssignmentLine(i, w.assignments[i]))
  {
    if kind == Clustering {
      var lines := CollectAssignments(w.assignments);
      return Ok(Trained(algorithm, kind, options, data, Whole, ClusteringMetrics(w.numClusters, lines)));
    }
    if data.classIndex < 0 {
      return Err(UnassignedClass);
    }
    var shuffled := Pick(Fitted(kind, data, w).rows, w.perm);
    var fit := TrainTest(TrainPart(shuffled, w.trainSize), TestPart(shuffled, w.trainSize));
    if kind == Classification {
      var labels := CollectClassLabels(ClassValues(data, w.toNominal));
      r := Ok(Trained(algorithm, kind, options, data, fit, ClassificationMetrics(labels)));
    } else {
      r := Ok(Trained(algorithm, kind, options, data, fit, RegressionMetrics));
    }
  }
}
