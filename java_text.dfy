/** The few pieces of java.lang.String and java.lang.Integer that the Weka runner
    relies on, with Java's own semantics written out: trim, ASCII case mapping,
    Integer.parseInt, the decimal rendering of an int, split(","), join(",")
    and literal replace. */
module JavaText {
  import opened Wrappers

  const IntMin: int := -0x8000_0000
  const IntMax: int := 0x7FFF_FFFF

  predicate InIntRange(v: int) { IntMin <= v <= IntMax }

  /** `v - 1` on a Java int: subtracting one from Integer.MIN_VALUE wraps to MAX_VALUE. */
  function Dec32(v: int): (r: int)
    requires InIntRange(v)
    ensures InIntRange(r)
  {
    if v == IntMin then IntMax else v - 1
  }

  // ---------------------------------------------------------------- trim

  /** String.trim removes every leading and trailing char whose code is at most U+0020. */
  predicate IsWhite(c: char) { c <= ' ' }

  function TrimLeft(s: string): (r: string)
    ensures |r| <= |s| && r == s[|s| - |r|..]
    ensures r != [] ==> !IsWhite(r[0])
    ensures forall i :: 0 <= i < |s| - |r| ==> IsWhite(s[i])
  {
    if s != [] && IsWhite(s[0]) then TrimLeft(s[1..]) else s
  }

  function TrimRight(s: string): (r: string)
    ensures |r| <= |s| && r == s[..|r|]
    ensures r != [] ==> !IsWhite(r[|r| - 1])
    ensures forall i :: |r| <= i < |s| ==> IsWhite(s[i])
  {
    if s != [] && IsWhite(s[|s| - 1]) then TrimRight(s[..|s| - 1]) else s
  }

  /** `r` is the piece of `s` starting at k, and everything around it is white. */
  predicate TrimmedAt(s: string, r: string, k: int)
  {
    0 <= k <= |s| - |r| && r == s[k..k + |r|]
    && (forall i :: 0 <= i < k ==> IsWhite(s[i]))
    && (forall i :: k + |r| <= i < |s| ==> IsWhite(s[i]))
  }

  /** The result is a contiguous piece of `s`, has no white char at either end,
      and everything cut away on either side is white. */
  function Trim(s: string): (r: string)
    ensures exists k :: TrimmedAt(s, r, k)
    ensures r != [] ==> !IsWhite(r[0]) && !IsWhite(r[|r| - 1])
  {
    var l := TrimLeft(s);
    var r := TrimRight(l);
    var k := |s| - |l|;
    assert r == s[k..k + |r|];
    assert TrimmedAt(s, r, k);
    r
  }

  // ---------------------------------------------------------------- case mapping

  function LowerChar(c: char): char
  {
    if 'A' <= c <= 'Z' then (c as int - 'A' as int + 'a' as int) as char else c
  }

  /** String.toLowerCase restricted to ASCII letters. */
  function ToLower(s: string): (r: string)
    ensures |r| == |s|
    ensures forall i :: 0 <= i < |s| ==> r[i] == LowerChar(s[i])
  {
    if s == [] then [] else [LowerChar(s[0])] + ToLower(s[1..])
  }

  /** String.equalsIgnoreCase on ASCII text: both sides agree after lower-casing. */
  predicate EqualsIgnoreCase(a: string, b: string)
  {
    ToLower(a) == ToLower(b)
  }

  lemma ToLowerIdempotent(s: string)
    ensures ToLower(ToLower(s)) == ToLower(s)
  {
    var t := ToLower(s);
    assert forall i :: 0 <= i < |t| ==> LowerChar(t[i]) == t[i];
  }

  // ---------------------------------------------------------------- Integer.parseInt

  predicate IsDigit(c: char) { '0' <= c <= '9' }

  predicate AllDigits(s: string) { forall i :: 0 <= i < |s| ==> IsDigit(s[i]) }

  /** The value of a string of ASCII digits; None as soon as another char shows up. */
  function DigitsValue(s: string): Option<nat>
  {
    if s == [] then Some(0)
    else
      match DigitsValue(s[..|s| - 1])
      case None => None
      case Some(v) =>
        var c := s[|s| - 1];
        if IsDigit(c) then Some(v * 10 + (c as int - '0' as int)) else None
  }

  /** Integer.parseInt(s, 10): an optional '-' or '+', then at least one ASCII digit,
      and the value must fit a 32-bit int; anything else is a NumberFormatException. */
  function ParseInt(s: string): (r: Option<int>)
    ensures r.Some? ==> InIntRange(r.value)
  {
    if s == [] then None
    else
      var signed := s[0] == '-' || s[0] == '+';
      var body := if signed then s[1..] else s;
      if body == [] then None
      else
        match DigitsValue(body)
        case None => None
        case Some(n) =>
          var m: int := n;
          var v := if s[0] == '-' then -m else m;
          if InIntRange(v) then Some(v) else None
  }

  /** DigitsValue has a value exactly on strings of ASCII digits. */
  lemma {:induction false} DigitsValueSpec(s: string)
    ensures DigitsValue(s).Some? <==> AllDigits(s)
  {
    if s != [] {
      DigitsValueSpec(s[..|s| - 1]);
      assert forall i :: 0 <= i < |s| - 1 ==> s[..|s| - 1][i] == s[i];
    }
  }

  /** How many leading chars of s are a sign. */
  function SignLength(s: string): (k: nat)
    ensures k <= 1 && (k == 1 <==> s != [] && (s[0] == '-' || s[0] == '+'))
  {
    if s != [] && (s[0] == '-' || s[0] == '+') then 1 else 0
  }

  /** s writes v in base 10: an optional '-' or '+', then one ASCII digit or more whose
      value is |v|, with '-' exactly when v is negated (leading zeros allowed). */
  predicate Numeral(s: string, v: int)
  {
    var k := SignLength(s);
    && k < |s| && AllDigits(s[k..])
    && DigitsValue(s[k..]).Some?
    && var n: int := DigitsValue(s[k..]).value;
       v == (if s[0] == '-' then -n else n)
  }

  /** Integer.parseInt succeeds with v exactly on a numeral for v that fits an int. */
  lemma ParseIntSpec(s: string, v: int)
    ensures ParseInt(s) == Some(v) <==> Numeral(s, v) && InIntRange(v)
  {
    DigitsValueSpec(s[SignLength(s)..]);
  }

  /** The cases parseInt meets in a column list. */
  lemma ParseIntExamples()
    ensures ParseInt("") == None && ParseInt("-") == None && ParseInt("1a") == None
    ensures ParseInt("+7") == Some(7) && ParseInt("007") == Some(7) && ParseInt("-5") == Some(-5)
  {
    assert "1a"[..1] == "1" && "1a"[1] == 'a';
    assert "+7"[1..] == "7" && "-5"[1..] == "5";
    assert "007"[..2] == "00" && "00"[..1] == "0";
  }

  // ---------------------------------------------------------------- Integer.toString

  function DigitChar(d: nat): (c: char)
    requires d < 10
    ensures IsDigit(c) && c as int - '0' as int == d
  {
    ('0' as int + d) as char
  }

  /** The decimal rendering of a natural number, without leading zeros. */
  function NatToString(n: nat): (r: string)
    ensures |r| >= 1 && AllDigits(r)
    ensures |r| > 1 ==> r[0] != '0'
  {
    if n < 10 then [DigitChar(n)] else NatToString(n / 10) + [DigitChar(n % 10)]
  }

  /** String.valueOf(int), as used by "Class_" + k and "Cluster_" + c. */
  function IntToString(i: int): string
  {
    if i < 0 then "-" + NatToString(-i) else NatToString(i)
  }

  lemma {:induction false} DigitsOfNat(n: nat)
    ensures DigitsValue(NatToString(n)) == Some(n)
  {
    var s := NatToString(n);
    if n >= 10 {
      DigitsOfNat(n / 10);
      assert s[..|s| - 1] == NatToString(n / 10);
    }
  }

  /** Integer.parseInt reads back every int that Integer.toString writes. */
  lemma ParseIntToString(i: int)
    requires InIntRange(i)
    ensures ParseInt(IntToString(i)) == Some(i)
  {
    var m: nat := if i < 0 then -i else i;
    DigitsOfNat(m);
    if i < 0 {
      assert IntToString(i)[1..] == NatToString(m);
    }
  }

  /** Different ints have different renderings, so labels built from them never clash. */
  lemma IntToStringInjective(i: int, j: int)
    requires InIntRange(i) && InIntRange(j)
    requires IntToString(i) == IntToString(j)
    ensures i == j
  {
    ParseIntToString(i);
    ParseIntToString(j);
  }

  // ---------------------------------------------------------------- split and join

  /** The pieces of `s` between commas, empty pieces included (a regex split with limit -1). */
  function Fields(s: string): (r: seq<string>)
    ensures |r| >= 1
    ensures forall k :: 0 <= k < |r| ==> ',' !in r[k]
  {
    if s == [] then [""]
    else
      var rest := Fields(s[1..]);
      if s[0] == ',' then [""] + rest else [[s[0]] + rest[0]] + rest[1..]
  }

  /** String.join(",", parts). */
  function Join(parts: seq<string>): string
  {
    if parts == [] then ""
    else if |parts| == 1 then parts[0]
    else parts[0] + "," + Join(parts[1..])
  }

  /** Drops the empty strings at the end of a split, as String.split does. */
  function DropTrailingEmpty(fs: seq<string>): (r: seq<string>)
    ensures |r| <= |fs| && r == fs[..|r|]
    ensures r != [] ==> r[|r| - 1] != ""
    ensures forall k :: |r| <= k < |fs| ==> fs[k] == ""
  {
    if fs == [] then []
    else if fs[|fs| - 1] == "" then DropTrailingEmpty(fs[..|fs| - 1])
    else fs
  }

  /** s.split(","): with no comma the answer is [s] (even for the empty string);
      otherwise the comma-separated pieces with the trailing empty ones dropped. */
  function Split(s: string): (r: seq<string>)
    ensures forall k :: 0 <= k < |r| ==> ',' !in r[k]
  {
    if ',' !in s then [s] else DropTrailingEmpty(Fields(s))
  }

  lemma {:induction false} FieldsJoin(s: string)
    ensures Join(Fields(s)) == s
  {
    if s != [] {
      FieldsJoin(s[1..]);
      var rest := Fields(s[1..]);
      if s[0] == ',' {
        assert Join([""] + rest) == "" + "," + Join(rest);
      } else if |rest| == 1 {
        assert Fields(s) == [[s[0]] + rest[0]];
      } else {
        assert Fields(s)[1..] == rest[1..];
        assert Join(rest) == rest[0] + "," + Join(rest[1..]);
      }
    }
  }

  lemma {:induction false} JoinFields(parts: seq<string>)
    requires |parts| >= 1
    requires forall k :: 0 <= k < |parts| ==> ',' !in parts[k]
    ensures Fields(Join(parts)) == parts
  {
    if |parts| == 1 {
      FieldsOfCommaFree(parts[0], []);
    } else {
      JoinFields(parts[1..]);
      FieldsOfCommaFree(parts[0], parts[1..]);
      assert Join(parts) == parts[0] + ("," + Join(parts[1..]));
    }
  }

  /** A comma-free piece in front of `"," + Join(rest)` is the first field. */
  lemma {:induction false} FieldsOfCommaFree(p: string, rest: seq<string>)
    requires ',' !in p
    requires rest != [] ==> Fields(Join(rest)) == rest
    ensures rest == [] ==> Fields(p) == [p]
    ensures rest != [] ==> Fields(p + "," + Join(rest)) == [p] + rest
  {
    var t := if rest == [] then p else p + "," + Join(rest);
    if p == [] {
      if rest != [] {
        assert t[1..] == Join(rest);
      }
    } else {
      FieldsOfCommaFree(p[1..], rest);
      var t' := if rest == [] then p[1..] else p[1..] + "," + Join(rest);
      assert t[1..] == t';
      assert t[0] == p[0];
      assert [p[0]] + p[1..] == p;
    }
  }

  /** Splitting what was joined gives the parts back, as long as no part holds a
      comma and the last part is not empty (split would drop it). */
  lemma SplitJoin(parts: seq<string>)
    requires |parts| >= 2
    requires forall k :: 0 <= k < |parts| ==> ',' !in parts[k]
    requires parts[|parts| - 1] != ""
    ensures Split(Join(parts)) == parts
  {
    JoinFields(parts);
    var s := Join(parts);
    assert s == parts[0] + "," + Join(parts[1..]);
    assert s[|parts[0]|] == ',';
  }

  /** Appending a part: what a StringBuilder loop that writes a comma before every part
      but the first produces. */
  lemma {:induction false} JoinSnoc(parts: seq<string>, p: string)
    requires parts != []
    ensures Join(parts + [p]) == Join(parts) + "," + p
    decreases |parts|
  {
    if |parts| > 1 {
      JoinSnoc(parts[1..], p);
      assert (parts + [p])[1..] == parts[1..] + [p];
    }
  }

  /** A single comma-free part, or several whose last is not empty, split back into the
      parts they were joined from. */
  lemma SplitJoinAny(parts: seq<string>)
    requires |parts| >= 1
    requires forall k :: 0 <= k < |parts| ==> ',' !in parts[k]
    requires |parts| >= 2 ==> parts[|parts| - 1] != ""
    ensures Split(Join(parts)) == parts
  {
    if |parts| >= 2 {
      SplitJoin(parts);
    }
  }

  /** Joining what DropTrailingEmpty keeps gives a prefix of the whole list joined, and
      what follows that prefix is commas only. */
  lemma {:induction false} JoinDropTrailing(fs: seq<string>)
    ensures var j, s := Join(DropTrailingEmpty(fs)), Join(fs);
      |j| <= |s| && s[..|j|] == j && forall i :: |j| <= i < |s| ==> s[i] == ','
  {
    if fs != [] && fs[|fs| - 1] == "" {
      var init := fs[..|fs| - 1];
      JoinDropTrailing(init);
      if init != [] {
        assert fs == init + [""];
        JoinSnoc(init, "");
      }
    }
  }

  /** What s.split(",") gives: s itself when it holds no comma; otherwise comma-free
      pieces, the last of them not empty, that joined again give s without its trailing
      commas (no piece at all when s is only commas). */
  lemma SplitSpec(s: string)
    ensures ',' !in s ==> Split(s) == [s]
    ensures ',' in s ==> Split(s) == [] || Split(s)[|Split(s)| - 1] != ""
    ensures ',' in s ==> var j := Join(Split(s));
      |j| <= |s| && s[..|j|] == j && forall i :: |j| <= i < |s| ==> s[i] == ','
  {
    FieldsJoin(s);
    JoinDropTrailing(Fields(s));
  }

  /** The cases split meets in a column list. */
  lemma SplitExamples()
    ensures Split("") == [""] && Split("1") == ["1"]
    ensures Split("1,2,") == ["1", "2"] && Split(",") == [] && Split(",1") == ["", "1"]
    ensures Split("3,1") == ["3", "1"] && Split("1,1") == ["1", "1"]
  {
    SmallFields();
    assert ',' in "1,2," && ',' in "," && ',' in ",1" && ',' in "3,1" && ',' in "1,1";
    assert DropTrailingEmpty(["1", "2", ""]) == DropTrailingEmpty(["1", "2"]);
    assert DropTrailingEmpty(["", ""]) == DropTrailingEmpty([""]) == DropTrailingEmpty([]);
  }

  lemma SmallFields()
    ensures Fields("") == [""] && Fields("1") == ["1"] && Fields(",") == ["", ""]
    ensures Fields(",1") == ["", "1"] && Fields("1,2,") == ["1", "2", ""]
    ensures Fields("3,1") == ["3", "1"] && Fields("1,1") == ["1", "1"]
  {
    assert "1"[1..] == [] && "2"[1..] == [] && ","[1..] == [] && ",1"[1..] == "1" && ",2,"[1..] == "2,";
    assert "2,"[1..] == "," && "1,2,"[1..] == ",2," && "3,1"[1..] == ",1" && "1,1"[1..] == ",1";
    assert ['1'] + "" == "1" && ['2'] + "" == "2" && ['3'] + "" == "3";
    assert "1"[0] == '1' && "2,"[0] == '2' && "3,1"[0] == '3' && "1,1"[0] == '1' && "1,2,"[0] == '1';
    assert Fields("1") == [['1'] + ""];
    assert Fields(",") == ["", ""];
    assert Fields("2,") == [['2'] + ""] + [""];
    assert Fields(",1") == ["", "1"] && Fields(",2,") == ["", "2", ""];
    assert Fields("1,2,") == [['1'] + ""] + ["2", ""];
    assert Fields("3,1") == [['3'] + ""] + ["1"] && Fields("1,1") == [['1'] + ""] + ["1"];
  }

  // ---------------------------------------------------------------- contains and replace

  /** `t` occurs in `s` starting at position i. */
  predicate OccursAt(s: string, t: string, i: int)
  {
    0 <= i && i + |t| <= |s| && s[i..i + |t|] == t
  }

  /** String.contains. */
  function Contains(s: string, t: string): (r: bool)
    ensures r <==> exists i :: OccursAt(s, t, i)
  {
    if |t| > |s| then false
    else if s[..|t|] == t then (assert OccursAt(s, t, 0); true)
    else
      var r := Contains(s[1..], t);
      if r then
        var i :| OccursAt(s[1..], t, i);
        assert OccursAt(s, t, i + 1) by { assert s[1..][i..i + |t|] == s[i + 1..i + 1 + |t|]; }
        true
      else
        assert !OccursAt(s, t, 0) by { assert s[..|t|] == s[0..|t|]; }
        forall i | OccursAt(s, t, i) ensures OccursAt(s[1..], t, i - 1) {
          assert s[1..][i - 1..i - 1 + |t|] == s[i..i + |t|];
        }
        false
  }

  /** String.replace(t, u): every occurrence of `t`, left to right and without
      overlap, becomes `u`. */
  function Replace(s: string, t: string, u: string): (r: string)
    requires t != []
    ensures !Contains(s, t) ==> r == s
    decreases |s|
  {
    if |s| < |t| then s
    else if s[..|t|] == t then u + Replace(s[|t|..], t, u)
    else
      assert !Contains(s, t) ==> !Contains(s[1..], t) by {
        if Contains(s[1..], t) {
          var i :| OccursAt(s[1..], t, i);
          assert s[1..][i..i + |t|] == s[i + 1..i + 1 + |t|];
          assert OccursAt(s, t, i + 1);
        }
      }
      [s[0]] + Replace(s[1..], t, u)
  }

  /** Where `t` occurs, the replaced text holds `u`. */
  lemma {:induction false} ReplaceEmits(s: string, t: string, u: string)
    requires t != [] && Contains(s, t)
    ensures Contains(Replace(s, t, u), u)
    decreases |s|
  {
    var i :| OccursAt(s, t, i);
    if s[..|t|] == t {
      assert OccursAt(Replace(s, t, u), u, 0);
    } else {
      assert i != 0 by { assert s[..|t|] == s[0..|t|]; }
      assert OccursAt(s[1..], t, i - 1) by { assert s[1..][i - 1..i - 1 + |t|] == s[i..i + |t|]; }
      ReplaceEmits(s[1..], t, u);
      var rest := Replace(s[1..], t, u);
      var j :| OccursAt(rest, u, j);
      assert ([s[0]] + rest)[j + 1..j + 1 + |u|] == rest[j..j + |u|];
      assert OccursAt([s[0]] + rest, u, j + 1);
    }
  }

  /** A text that is exactly the searched one becomes the replacement. */
  lemma ReplaceWhole(t: string, u: string)
    requires t != []
    ensures Replace(t, t, u) == u
  {
    assert t[..|t|] == t;
    assert t[|t|..] == [];
  }
}
