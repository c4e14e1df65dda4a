/** `parse_simulation_name` (dev/dev_lotusLake.py): a simulation directory name
    such as `d1.5_g0.2` read as a dictionary of parameters. Python's `float` is
    kept abstract: a partial map from text to a number. */
module SimulationName {
  import opened Wrappers
  import opened Seqs
  import opened OrderedDicts

  /** `float(text)`: `None` where Python raises ValueError. */
  type FloatParser = string -> Option<real>

  datatype ParseError = ValueError(text: string)  // float() rejected this text

  const Separator: char := '_'

  /** `s.split(sep)`: the pieces between separators, empty pieces included. */
  function Split(s: string, sep: char): (parts: seq<string>)
    ensures |parts| > 0
  {
    if s == [] then [[]]
    else
      var rest := Split(s[1..], sep);
      if s[0] == sep then [[]] + rest else [[s[0]] + rest[0]] + rest[1..]
  }

  /** `sep.join(parts)`. */
  function Join(parts: seq<string>, sep: char): string {
    if parts == [] then []
    else if |parts| == 1 then parts[0]
    else parts[0] + [sep] + Join(parts[1..], sep)
  }

  /** Splitting gives one more piece than there are separators, no piece holds
      the separator, and joining the pieces back gives the name again. */
  lemma {:induction false} SplitMeaning(s: string, sep: char)
    ensures |Split(s, sep)| == Count(s, sep) + 1
    ensures forall i :: 0 <= i < |Split(s, sep)| ==> sep !in Split(s, sep)[i]
    ensures Join(Split(s, sep), sep) == s
  {
    if s != [] {
      var rest := Split(s[1..], sep);
      SplitMeaning(s[1..], sep);
      if s[0] == sep {
        assert Split(s, sep) == [[]] + rest;
        assert s == [] + [sep] + s[1..];
      } else {
        var parts := Split(s, sep);
        assert parts == [[s[0]] + rest[0]] + rest[1..];
        forall i | 0 <= i < |parts| ensures sep !in parts[i] {
          if i > 0 { assert parts[i] == rest[i]; }
        }
        if |rest| == 1 {
          assert s == [s[0]] + rest[0];
        } else {
          assert parts[1..] == rest[1..];
          assert Join(rest, sep) == rest[0] + [sep] + Join(rest[1..], sep);
          assert s == [s[0]] + s[1..];
        }
      }
    }
  }

  /** A piece without the separator is not split. */
  lemma {:induction false} SplitWhole(t: string, sep: char)
    requires sep !in t
    ensures Split(t, sep) == [t]
  {
    if t != [] {
      SplitWhole(t[1..], sep);
      assert [t[0]] + t[1..] == t;
    }
  }

  /** Splitting after a separator-free first piece. */
  lemma {:induction false} SplitFirst(a: string, sep: char, b: string)
    requires sep !in a
    ensures Split(a + [sep] + b, sep) == [a] + Split(b, sep)
  {
    if a == [] {
      assert a + [sep] + b == [sep] + b;
      assert ([sep] + b)[1..] == b;
    } else {
      SplitFirst(a[1..], sep, b);
      assert (a + [sep] + b)[1..] == a[1..] + [sep] + b;
      assert [a[0]] + a[1..] == a;
    }
  }

  /** The character class `[0-9, .]`: a digit, a comma, a space or a period. */
  predicate IsNumeric(c: char) {
    '0' <= c <= '9' || c == ',' || c == ' ' || c == '.'
  }

  /** A character outside the class `[0-9, .]`. */
  predicate IsKeyChar(c: char) {
    !IsNumeric(c)
  }

  /** A character outside the class `[a-z]`. */
  predicate IsNotLower(c: char) {
    !('a' <= c <= 'z')
  }

  /** `re.sub("[0-9, .]", "", token)`: no longer than the token, and free of
      digits, commas, spaces and periods. */
  function KeyOf(token: string): (key: string)
    ensures |key| <= |token|
    ensures forall c :: c in key ==> !IsNumeric(c)
  {
    FilterMembers(token, IsKeyChar);
    Filter(token, IsKeyChar)
  }

  /** `re.sub("[a-z]", "", token)`: no longer than the token, and free of
      lower-case letters. */
  function NumberTextOf(token: string): (text: string)
    ensures |text| <= |token|
    ensures forall c :: c in text ==> !('a' <= c <= 'z')
  {
    FilterMembers(token, IsNotLower);
    Filter(token, IsNotLower)
  }

  /** A key is its token with exactly the digits, commas, spaces and periods
      deleted, in order: every other character keeps all its occurrences. */
  lemma KeyOfMeaning(token: string)
    ensures forall c :: c in KeyOf(token) <==> c in token && !IsNumeric(c)
    ensures IsSubsequence(KeyOf(token), token)
    ensures forall c :: !IsNumeric(c) ==> Count(KeyOf(token), c) == Count(token, c)
    ensures forall c :: IsNumeric(c) ==> Count(KeyOf(token), c) == 0
  {
    FilterMembers(token, IsKeyChar);
    forall c {
      FilterCount(token, IsKeyChar, c);
    }
    FilterIsSubsequence(token, IsKeyChar);
  }

  /** The number text is its token with exactly the lower-case letters deleted:
      upper-case letters, signs and every other character survive, in order
      and with all their occurrences. */
  lemma NumberTextOfMeaning(token: string)
    ensures forall c :: c in NumberTextOf(token) <==> c in token && !('a' <= c <= 'z')
    ensures IsSubsequence(NumberTextOf(token), token)
    ensures forall c :: !('a' <= c <= 'z') ==> Count(NumberTextOf(token), c) == Count(token, c)
    ensures forall c :: 'a' <= c <= 'z' ==> Count(NumberTextOf(token), c) == 0
  {
    FilterMembers(token, IsNotLower);
    forall c {
      FilterCount(token, IsNotLower, c);
    }
    FilterIsSubsequence(token, IsNotLower);
  }

  /** The pieces of the name. */
  function Tokens(name: string): seq<string> {
    Split(name, Separator)
  }

  /** `keys = [re.sub("[0-9, .]", "", p) for p in parameters]`: one key per
      `_`-separated token, none holding a digit, comma, space or period. */
  function TokenKeys(name: string): (keys: seq<string>)
    ensures |keys| == Count(name, Separator) + 1
    ensures forall i, c :: 0 <= i < |keys| && c in keys[i] ==> !IsNumeric(c)
  {
    SplitMeaning(name, Separator);
    var tokens := Tokens(name);
    seq(|tokens|, i requires 0 <= i < |tokens| => KeyOf(tokens[i]))
  }

  /** `[float(t) for t in texts]`: the numbers, or the first text float rejects. */
  function ParseAll(texts: seq<string>, float: FloatParser): (r: Result<seq<real>, ParseError>)
    ensures r.Success? <==> forall i :: 0 <= i < |texts| ==> float(texts[i]).Some?
    ensures r.Success? ==> |r.value| == |texts| && forall i :: 0 <= i < |texts| ==> Some(r.value[i]) == float(texts[i])
    ensures r.Failure? ==> exists i :: 0 <= i < |texts| && float(texts[i]).None? && r.error == ValueError(texts[i])
                                       && forall j :: 0 <= j < i ==> float(texts[j]).Some?
  {
    if texts == [] then Success([])
    else
      match float(texts[0])
      case None => Failure(ValueError(texts[0]))
      case Some(x) =>
        match ParseAll(texts[1..], float)
        case Failure(e) =>
          assert exists i :: 0 <= i < |texts| && float(texts[i]).None? && e == ValueError(texts[i])
                             && forall j :: 0 <= j < i ==> float(texts[j]).Some? by {
            var i :| 0 <= i < |texts[1..]| && float(texts[1..][i]).None? && e == ValueError(texts[1..][i])
                     && forall j :: 0 <= j < i ==> float(texts[1..][j]).Some?;
            assert texts[i + 1] == texts[1..][i];
            forall j | 0 <= j < i + 1 ensures float(texts[j]).Some? {
              if j > 0 { assert texts[j] == texts[1..][j - 1]; }
            }
          }
          Failure(e)
        case Success(rest) =>
          assert forall i :: 1 <= i < |texts| ==> texts[i] == texts[1..][i - 1];
          Success([x] + rest)
  }

  /** The texts handed to `float`, one per token. */
  function NumberTexts(name: string): seq<string> {
    var tokens := Tokens(name);
    seq(|tokens|, i requires 0 <= i < |tokens| => NumberTextOf(tokens[i]))
  }

  /** `values = [float(re.sub("[a-z]", "", p)) for p in parameters]`: one
      value per `_`-separated token when every text converts. */
  function TokenValues(name: string, float: FloatParser): (r: Result<seq<real>, ParseError>)
    ensures r.Success? ==> |r.value| == Count(name, Separator) + 1
  {
    SplitMeaning(name, Separator);
    ParseAll(NumberTexts(name), float)
  }

  /** `parse_simulation_name(name)`: split on `_`, compute every key, then
      every value, and build `dict(zip(keys, values))`. It succeeds exactly
      when `float` accepts the number text of every token; otherwise it reports
      a rejected text (the first, as `ParseAll` states). */
  function ParseSimulationName(name: string, float: FloatParser): (r: Result<Dict<string, real>, ParseError>)
    ensures r.Success? <==>
      forall i :: 0 <= i < |Tokens(name)| ==> float(NumberTextOf(Tokens(name)[i])).Some?
    ensures r.Failure? ==>
      exists i :: 0 <= i < |Tokens(name)| && float(NumberTextOf(Tokens(name)[i])).None?
                  && r.error == ValueError(NumberTextOf(Tokens(name)[i]))
  {
    assert forall i :: 0 <= i < |Tokens(name)| ==> NumberTexts(name)[i] == NumberTextOf(Tokens(name)[i]);
    match TokenValues(name, float)
    case Failure(e) => Failure(e)
    case Success(values) => Success(FromPairs(Zip(TokenKeys(name), values)))
  }

  /** Before the dictionary collapses duplicates there is one key and one value
      per `_`-separated token: `name.count('_') + 1` of each. Key `i` is token
      `i` without digits, commas, spaces and periods, and value `i` is `float`
      of token `i` without lower-case letters. */
  lemma TokenCounts(name: string, float: FloatParser)
    ensures |TokenKeys(name)| == Count(name, Separator) + 1
    ensures forall i :: 0 <= i < |TokenKeys(name)| ==> TokenKeys(name)[i] == KeyOf(Tokens(name)[i])
    ensures TokenValues(name, float).Success? ==>
      && |TokenValues(name, float).value| == Count(name, Separator) + 1
      && forall i :: 0 <= i < |Tokens(name)| ==>
           Some(TokenValues(name, float).value[i]) == float(NumberTextOf(Tokens(name)[i]))
  {
    SplitMeaning(name, Separator);
  }

  /** A token made only of lower-case letters leaves nothing for `float`, and
      since `float("")` raises, the whole call fails. */
  lemma LetterOnlyTokenFails(name: string, float: FloatParser, i: nat)
    requires float("") == None
    requires i < |Tokens(name)|
    requires forall j :: 0 <= j < |Tokens(name)[i]| ==> 'a' <= Tokens(name)[i][j] <= 'z'
    ensures ParseSimulationName(name, float).Failure?
  {
    var token := Tokens(name)[i];
    FilterAllOrNone(token, IsNotLower);
    assert NumberTextOf(token) == [];
  }

  /** The parsed dictionary: its keys are the distinct token keys, and each key
      holds the value of the LAST token that produced it. */
  lemma ParsedDictionary(name: string, float: FloatParser)
    requires ParseSimulationName(name, float).Success?
    ensures var d := ParseSimulationName(name, float).value;
      var keys, values := TokenKeys(name), TokenValues(name, float).value;
      && Distinct(Keys(d))
      && (forall k :: k in Keys(d) <==> k in keys)
      && forall i :: 0 <= i < |keys| && (forall j :: i < j < |keys| ==> keys[j] != keys[i]) ==>
           Get(d, keys[i]) == Some(values[i])
  {
    TokenCounts(name, float);
    ZippedDictionary(TokenKeys(name), TokenValues(name, float).value);
  }

  /** A token made of a key of letters followed by a number text without letters
      parts into exactly that key and that text. */
  lemma TokenParts(letters: string, number: string)
    requires forall i :: 0 <= i < |letters| ==> 'a' <= letters[i] <= 'z'
    requires forall i :: 0 <= i < |number| ==> IsNumeric(number[i])
    ensures KeyOf(letters + number) == letters
    ensures NumberTextOf(letters + number) == number
  {
    FilterAppend(letters, number, IsKeyChar);
    FilterAllOrNone(letters, IsKeyChar);
    FilterAllOrNone(number, IsKeyChar);
    assert Filter(letters, IsKeyChar) == letters && Filter(number, IsKeyChar) == [];
    assert Filter(letters, IsKeyChar) + Filter(number, IsKeyChar) == letters;
    FilterAppend(letters, number, IsNotLower);
    FilterAllOrNone(letters, IsNotLower);
    FilterAllOrNone(number, IsNotLower);
    assert Filter(letters, IsNotLower) == [] && Filter(number, IsNotLower) == number;
    assert Filter(letters, IsNotLower) + Filter(number, IsNotLower) == number;
  }

  /** A name of two tokens `a_b` whose key/number parts are as in TokenParts
      parses to the dictionary built from its two (key, value) pairs. */
  lemma TwoTokenName(k1: string, n1: string, k2: string, n2: string, float: FloatParser)
    requires forall i :: 0 <= i < |k1| ==> 'a' <= k1[i] <= 'z'
    requires forall i :: 0 <= i < |k2| ==> 'a' <= k2[i] <= 'z'
    requires forall i :: 0 <= i < |n1| ==> IsNumeric(n1[i])
    requires forall i :: 0 <= i < |n2| ==> IsNumeric(n2[i])
    requires float(n1).Some? && float(n2).Some?
    ensures ParseSimulationName(k1 + n1 + [Separator] + k2 + n2, float)
            == Success(FromPairs([(k1, float(n1).value), (k2, float(n2).value)]))
  {
    var t1, t2 := k1 + n1, k2 + n2;
    assert k1 + n1 + [Separator] + k2 + n2 == t1 + [Separator] + t2;
    assert Separator !in t1 && Separator !in t2;
    SplitFirst(t1, Separator, t2);
    SplitWhole(t2, Separator);
    TokenParts(k1, n1);
    TokenParts(k2, n2);
    var name := t1 + [Separator] + t2;
    assert Tokens(name) == [t1, t2];
    assert NumberTexts(name) == [n1, n2];
    assert TokenKeys(name) == [k1, k2];
    assert TokenValues(name, float) == ParseAll([n1, n2], float);
    var values := TokenValues(name, float).value;
    assert |values| == 2 && Some(values[0]) == float(n1) && Some(values[1]) == float(n2);
    assert values == [float(n1).value, float(n2).value];
    assert Zip(TokenKeys(name), values) == [(k1, float(n1).value), (k2, float(n2).value)];
  }

  /** `parse_simulation_name("d1.5_g0.2")` is `{"d": float("1.5"), "g": float("0.2")}`. */
  lemma ExampleTwoParameters(float: FloatParser)
    requires float("1.5").Some? && float("0.2").Some?
    ensures ParseSimulationName("d1.5_g0.2", float)
            == Success([("d", float("1.5").value), ("g", float("0.2").value)])
  {
    assert "d1.5_g0.2" == "d" + "1.5" + [Separator] + "g" + "0.2";
    TwoTokenName("d", "1.5", "g", "0.2", float);
    var pairs := [("d", float("1.5").value), ("g", float("0.2").value)];
    assert Keys(pairs) == ["d", "g"];
    assert [] + pairs == pairs;
    UpdateFresh([], pairs);
  }

  /** A repeated key keeps the later token's value: `d1_d2` gives `{"d": float("2")}`. */
  lemma ExampleLaterDuplicateWins(float: FloatParser)
    requires float("1").Some? && float("2").Some?
    ensures ParseSimulationName("d1_d2", float) == Success([("d", float("2").value)])
  {
    assert "d1_d2" == "d" + "1" + [Separator] + "d" + "2";
    TwoTokenName("d", "1", "d", "2", float);
    var x, y := float("1").value, float("2").value;
    assert Assign([], "d", x) == [("d", x)];
    assert Assign([("d", x)], "d", y) == [("d", y)];
    assert FromPairs([("d", x), ("d", y)]) == Update([("d", x)], [("d", y)]);
  }
}
