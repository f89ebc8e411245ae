// The chain action of action_plugins/chain/__init__.py: a list of action
// sequences run one after the other, one sequence per activation, with an
// optional timeout after which the chain starts over. Selectors are the
// decimal numbers of the sequences, so the decimal rendering of `str` and
// the parsing of `int` are modelled too. The clock enters as a parameter.
module ChainPlugin {
  import opened PyCore
  import opened GremlinTypes
  import Profiles
  import BaseClasses

  // ---------------------------------------------------------------------
  // Decimal selectors

  predicate IsDigit(c: char) { '0' <= c <= '9' }

  predicate AllDigits(s: string) { forall i :: 0 <= i < |s| ==> IsDigit(s[i]) }

  function DigitChar(d: nat): (c: char)
    requires d < 10
    ensures IsDigit(c) && c as int - '0' as int == d
  {
    ('0' as int + d) as char
  }

  /** `str(n)` for a non-negative integer: decimal digits, no leading zero. */
  function ShowNat(n: nat): (r: string)
    ensures |r| >= 1 && AllDigits(r)
    ensures r[0] == '0' ==> n == 0
  {
    if n < 10 then [DigitChar(n)] else ShowNat(n / 10) + [DigitChar(n % 10)]
  }

  /** A digit or the underscore Python allows between digits. */
  predicate IsDigitOrUnderscore(c: char) { IsDigit(c) || c == '_' }

  /**
   * The body of a numeral `int()` accepts: decimal digits, starting and
   * ending with a digit, where an underscore may stand only between two
   * digits.
   */
  predicate Numeral(s: string)
  {
    && s != [] && IsDigit(s[0]) && IsDigit(s[|s| - 1])
    && (forall i :: 0 <= i < |s| ==> IsDigitOrUnderscore(s[i]))
    && (forall i, j :: 0 <= i < |s| - 1 && j == i + 1 && s[i] == '_' ==> IsDigit(s[j]))
  }

  /** The value of a numeral body: its digits read in base 10, underscores skipped. */
  function DigitsValue(s: string): nat
    requires forall i :: 0 <= i < |s| ==> IsDigitOrUnderscore(s[i])
    decreases |s|
  {
    if s == [] then 0
    else if s[|s| - 1] == '_' then DigitsValue(s[..|s| - 1])
    else
      assert IsDigitOrUnderscore(s[|s| - 1]);
      DigitsValue(s[..|s| - 1]) * 10 + (s[|s| - 1] as int - '0' as int)
  }

  /** The sign `int()` reads in front of the digits, and the rest of the text. */
  function SplitSign(t: string): (bool, string)
  {
    if t != [] && (t[0] == '-' || t[0] == '+') then (t[0] == '-', t[1..]) else (false, t)
  }

  /**
   * `int(s)` for base 10: surrounding white space is ignored, one optional
   * '+' or '-' may precede the digits, and single underscores may separate
   * digits; anything else raises ValueError.
   */
  function ParseInt(s: string): (r: Result<int>)
    ensures r.Err? ==> r.fault == ValueError
    ensures AllDigits(s) && s != [] ==> r == Ok(DigitsValue(s))
    ensures r.Ok? <==> Numeral(SplitSign(Strip(s)).1)
  {
    DigitsAreNumeral(s);
    var (negative, body) := SplitSign(Strip(s));
    SignedNumeral(negative, body)
  }

  /** The value of a numeral `body` after its sign has been read, or ValueError when it is no numeral. */
  function SignedNumeral(negative: bool, body: string): (r: Result<int>)
    ensures r.Err? ==> r.fault == ValueError
    ensures r.Ok? <==> Numeral(body)
    ensures var magnitude: int := if Numeral(body) then DigitsValue(body) else 0;
            Numeral(body) ==> r == Ok(if negative then -magnitude else magnitude)
  {
    if !Numeral(body) then Err(ValueError)
    else
      var magnitude: int := DigitsValue(body);
      Ok(if negative then -magnitude else magnitude)
  }

  /** A digit string has no white space to strip and no sign, and is a numeral. */
  lemma DigitsAreNumeral(s: string)
    ensures AllDigits(s) && s != [] ==> Strip(s) == s && SplitSign(s) == (false, s) && Numeral(s)
  {
    if AllDigits(s) && s != [] {
      assert IsDigit(s[0]) && IsDigit(s[|s| - 1]);
      StripKeeps(s);
    }
  }

  /** `int()` reads a sign in front of any numeral: '-' negates its value and '+' keeps it. */
  lemma ParseIntSigned(sign: char, body: string)
    requires (sign == '-' || sign == '+') && Numeral(body)
    ensures var value: int := DigitsValue(body); ParseInt([sign] + body) == Ok(if sign == '-' then -value else value)
  {
    var text := [sign] + body;
    assert SplitSign(Strip(text)) == (sign == '-', body) by {
      SignedText(sign, body);
    }
    ParseIntOfParts(text, sign == '-', body);
  }

  /** What `int()` gives is decided by the sign and the body left after stripping. */
  lemma ParseIntOfParts(s: string, negative: bool, body: string)
    requires SplitSign(Strip(s)) == (negative, body) && Numeral(body)
    ensures var value: int := DigitsValue(body); ParseInt(s) == Ok(if negative then -value else value)
  {
  }

  /** Texts that strip to the same text read the same under `int()`. */
  lemma ParseIntSameStrip(s: string, t: string)
    requires Strip(s) == Strip(t)
    ensures ParseInt(s) == ParseInt(t)
  {
    var (negative, body) := SplitSign(Strip(s));
    if Numeral(body) {
      ParseIntOfParts(s, negative, body);
      ParseIntOfParts(t, negative, body);
    }
  }

  /** A sign followed by a numeral has nothing to strip and splits into the sign and the numeral. */
  lemma SignedText(sign: char, body: string)
    requires (sign == '-' || sign == '+') && Numeral(body)
    ensures Strip([sign] + body) == [sign] + body
    ensures SplitSign([sign] + body) == (sign == '-', body)
  {
    var t := [sign] + body;
    assert t[|t| - 1] == body[|body| - 1];
    StripKeeps(t);
    assert t[1..] == body;
  }

  /** White space on both sides of any text changes nothing `int()` makes of it, value or ValueError. */
  lemma ParseIntSpaced(s: string, before: char, after: char)
    requires IsSpace(before) && IsSpace(after)
    ensures ParseInt([before] + s + [after]) == ParseInt(s)
  {
    StripPadded(s, before, after);
    ParseIntSameStrip([before] + s + [after], s);
  }

  /** An underscore between two numerals is skipped: `int()` reads the digits joined. */
  lemma ParseIntUnderscore(a: string, b: string)
    requires Numeral(a) && Numeral(b)
    ensures Numeral(a + b) && Numeral(a + "_" + b)
    ensures ParseInt(a + "_" + b) == ParseInt(a + b) == Ok(DigitsValue(a + b))
  {
    var joined, separated := a + b, a + "_" + b;
    assert Numeral(joined) by {
      forall i | 0 <= i < |joined| - 1 && joined[i] == '_' ensures IsDigit(joined[i + 1]) {
        if i < |a| - 1 {
          assert joined[i] == a[i] && joined[i + 1] == a[i + 1];
        } else {
          assert joined[i] == b[i - |a|] && joined[i + 1] == b[i + 1 - |a|];
        }
      }
      assert joined[|joined| - 1] == b[|b| - 1];
    }
    assert Numeral(separated) by {
      forall i | 0 <= i < |separated| - 1 && separated[i] == '_' ensures IsDigit(separated[i + 1]) {
        if i < |a| - 1 {
          assert separated[i] == a[i] && separated[i + 1] == a[i + 1];
        } else if i >= |a| + 1 {
          assert separated[i] == b[i - |a| - 1] && separated[i + 1] == b[i - |a|];
        } else if i == |a| {
          assert separated[i + 1] == b[0];
        }
      }
      assert separated[|separated| - 1] == b[|b| - 1];
    }
    assert SplitSign(Strip(joined)) == (false, joined) by {
      DigitsAreNumeralText(joined);
    }
    assert SplitSign(Strip(separated)) == (false, separated) by {
      DigitsAreNumeralText(separated);
    }
    UnderscoreSkipped(a, b);
    ParseIntOfParts(joined, false, joined);
    ParseIntOfParts(separated, false, separated);
  }

  /** A numeral has nothing to strip and no sign. */
  lemma DigitsAreNumeralText(s: string)
    requires Numeral(s)
    ensures Strip(s) == s && SplitSign(s) == (false, s)
  {
    StripKeeps(s);
  }

  /** The value of digits with an underscore between two parts is the value of the parts joined. */
  lemma {:induction false} UnderscoreSkipped(a: string, b: string)
    requires forall i :: 0 <= i < |a| ==> IsDigitOrUnderscore(a[i])
    requires forall i :: 0 <= i < |b| ==> IsDigitOrUnderscore(b[i])
    ensures DigitsValue(a + "_" + b) == DigitsValue(a + b)
    decreases |b|
  {
    var separated, joined := a + "_" + b, a + b;
    if b == [] {
      assert separated[..|separated| - 1] == a && joined == a;
    } else {
      var init := b[..|b| - 1];
      UnderscoreSkipped(a, init);
      assert separated[..|separated| - 1] == a + "_" + init;
      assert joined[..|joined| - 1] == a + init;
      assert separated[|separated| - 1] == joined[|joined| - 1] == b[|b| - 1];
    }
  }

  /** Two underscores in a row make `int()` refuse the text, wherever they stand. */
  lemma ParseIntRefusesDoubleUnderscore(s: string, i: int)
    requires 0 <= i < |s| - 1 && s[i] == '_' && s[i + 1] == '_'
    ensures ParseInt(s).Err?
  {
    var j := StripKeepsPair(s, i);
    DoubleUnderscoreRefused(Strip(s), j);
  }

  /** Two adjacent characters that are not white space survive stripping, side by side. */
  lemma {:induction false} StripKeepsPair(s: string, i: int) returns (j: int)
    requires 0 <= i < |s| - 1 && !IsSpace(s[i]) && !IsSpace(s[i + 1])
    ensures 0 <= j < |Strip(s)| - 1 && Strip(s)[j] == s[i] && Strip(s)[j + 1] == s[i + 1]
  {
    var p, q := StripAt(s);
    j := PairInSlice(s, Strip(s), p, q, i);
  }

  /** A pair of characters that are not white space lies inside any slice that only drops white space. */
  lemma {:induction false} PairInSlice(s: string, t: string, p: nat, q: nat, i: int) returns (j: int)
    requires p <= q <= |s| && |t| == q - p
    requires forall k :: 0 <= k < q - p ==> t[k] == s[p + k]
    requires forall k :: 0 <= k < p ==> IsSpace(s[k])
    requires forall k :: q <= k < |s| ==> IsSpace(s[k])
    requires 0 <= i < |s| - 1 && !IsSpace(s[i]) && !IsSpace(s[i + 1])
    ensures 0 <= j < |t| - 1 && t[j] == s[i] && t[j + 1] == s[i + 1]
  {
    j := i - p;
    assert s[p + j] == s[i] && s[p + (j + 1)] == s[i + 1];
  }

  /** A text with two adjacent underscores has no numeral after its sign. */
  lemma {:induction false} DoubleUnderscoreRefused(t: string, j: int)
    requires 0 <= j < |t| - 1 && t[j] == '_' && t[j + 1] == '_'
    ensures !Numeral(SplitSign(t).1)
  {
    var body := SplitSign(t).1;
    var k := if body == t then j else j - 1;
    assert body[k] == '_' && body[k + 1] == '_';
  }

  /** White space between the sign and the digits makes `int()` refuse the text. */
  lemma ParseIntRefusesSpacedSign(sign: char, space: char, s: string)
    requires (sign == '-' || sign == '+') && IsSpace(space)
    ensures ParseInt([sign, space] + s).Err?
  {
    var text := [sign, space] + s;
    var p, q := StripIsSlice(text);
    assert !IsSpace(text[0]);
    assert p == 0 && q >= 1;
    var body := SplitSign(Strip(text)).1;
    assert body == text[1..q];
    if body != [] {
      assert body[0] == space;
    }
  }

  /** Reading back the decimal rendering of a number gives the number. */
  lemma {:induction false} ParseShowNat(n: nat)
    ensures DigitsValue(ShowNat(n)) == n
  {
    if n >= 10 {
      ParseShowNat(n / 10);
      var s := ShowNat(n);
      assert s[..|s| - 1] == ShowNat(n / 10);
    }
  }

  /** `int(str(n)) == n`; in particular distinct sequences have distinct selectors. */
  lemma SelectorRoundTrip(n: nat)
    ensures ParseInt(ShowNat(n)) == Ok(n)
  {
    ParseShowNat(n);
  }

  // ---------------------------------------------------------------------
  // Sorting the parsed keys

  /** `m` is no greater than any element of `s`. */
  predicate Below(m: int, s: set<int>) { forall o :: o in s ==> m <= o }

  /** Some element of a non-empty set. */
  lemma ElementOf<T>(s: set<T>) returns (x: T)
    requires s != {}
    ensures x in s
  {
    x :| x in s;
  }

  lemma {:induction false} MinExists(s: set<int>)
    requires s != {}
    ensures exists m :: m in s && Below(m, s)
    decreases |s|
  {
    var x := ElementOf(s);
    if s - {x} == {} {
      forall o | o in s ensures x <= o {
        assert o !in s - {x};
      }
      assert x in s && Below(x, s);
    } else {
      MinExists(s - {x});
      var m :| m in s - {x} && Below(m, s - {x});
      if x < m {
        forall o | o in s ensures x <= o {
          if o != x { assert o in s - {x}; }
        }
        assert x in s && Below(x, s);
      } else {
        forall o | o in s ensures m <= o {
          if o != x { assert o in s - {x}; }
        }
        assert m in s && Below(m, s);
      }
    }
  }

  /** `sorted(keys)` for a set of integers: its elements, smallest first (see SortedIntsAscending). */
  function SortedInts(s: set<int>): (r: seq<int>)
    ensures |r| == |s|
    ensures forall x :: x in r <==> x in s
    decreases |s|
  {
    if s == {} then []
    else
      MinExists(s);
      var m :| m in s && Below(m, s);
      [m] + SortedInts(s - {m})
  }

  /** The sorted keys are strictly ascending. */
  lemma {:induction false} SortedIntsAscending(s: set<int>)
    ensures forall i, j :: 0 <= i < j < |SortedInts(s)| ==> SortedInts(s)[i] < SortedInts(s)[j]
    decreases |s|
  {
    if s != {} {
      var r := SortedInts(s);
      var m := r[0];
      var rest := SortedInts(s - {m});
      assert r == [m] + rest;
      SortedIntsAscending(s - {m});
      assert Below(m, s);
      forall i, j | 0 <= i < j < |r| ensures r[i] < r[j] {
        if i == 0 { assert r[j] in s - {m}; }
        else { assert r[i] == rest[i - 1] && r[j] == rest[j - 1]; }
      }
    }
  }

  /**
   * `chain_dict` after the parse loop: for each chain-N element in document
   * order, N maps to its actions; a later element with the same N wins.
   */
  function ChainDict(entries: seq<(int, seq<Profiles.LibraryAction>)>): (d: map<int, seq<Profiles.LibraryAction>>)
    ensures forall k :: k in d <==> exists i :: 0 <= i < |entries| && entries[i].0 == k
    decreases |entries|
  {
    if entries == [] then map[]
    else
      var last := entries[|entries| - 1];
      var d := ChainDict(entries[..|entries| - 1])[last.0 := last.1];
      assert forall i :: 0 <= i < |entries| - 1 ==> entries[..|entries| - 1][i] == entries[i];
      d
  }

  /** The value a key ends with is the one of its last element. */
  lemma {:induction false} ChainDictLastWins(entries: seq<(int, seq<Profiles.LibraryAction>)>, i: nat)
    requires i < |entries|
    requires forall j :: i < j < |entries| ==> entries[j].0 != entries[i].0
    ensures entries[i].0 in ChainDict(entries) && ChainDict(entries)[entries[i].0] == entries[i].1
    decreases |entries|
  {
    if i < |entries| - 1 {
      var front := entries[..|entries| - 1];
      ChainDictLastWins(front, i);
    }
  }

  /** The sequences in ascending key order. */
  function InKeyOrder(d: map<int, seq<Profiles.LibraryAction>>): (r: seq<seq<Profiles.LibraryAction>>)
    ensures |r| == |d.Keys|
    ensures forall i :: 0 <= i < |r| ==> SortedInts(d.Keys)[i] in d && r[i] == d[SortedInts(d.Keys)[i]]
  {
    var keys := SortedInts(d.Keys);
    seq(|keys|, i requires 0 <= i < |keys| => d[keys[i]])
  }

  /** The library's action for every id, GremlinError at the first unknown one. */
  function Resolve(library: Profiles.Library, ids: seq<Uuid>): (r: Result<seq<Profiles.LibraryAction>>)
    reads library
    ensures r.Ok? <==> forall i :: 0 <= i < |ids| ==> library.HasAction(ids[i])
    ensures r.Err? ==> r.fault == GremlinError
    ensures r.Ok? ==> |r.value| == |ids| && forall i :: 0 <= i < |ids| ==> r.value[i] == library.actions[ids[i]]
    decreases |ids|
  {
    if ids == [] then Ok([])
    else
      match library.GetAction(ids[0])
      case Err(f) => Err(f)
      case Ok(a) =>
        match Resolve(library, ids[1..])
        case Err(f) =>
          assert forall i :: 1 <= i < |ids| ==> ids[1..][i - 1] == ids[i];
          Err(f)
        case Ok(rest) => Ok([a] + rest)
  }

  /** Every chain-N element's ids are known to the library. */
  predicate AllResolve(library: Profiles.Library, entries: seq<(int, seq<Uuid>)>)
    reads library
  {
    forall i :: 0 <= i < |entries| ==> Resolve(library, entries[i].1).Ok?
  }

  /** The chain-N elements with their ids replaced by the library's actions. */
  function Parsed(library: Profiles.Library, entries: seq<(int, seq<Uuid>)>): (r: seq<(int, seq<Profiles.LibraryAction>)>)
    reads library
    requires AllResolve(library, entries)
    ensures |r| == |entries|
    ensures forall i :: 0 <= i < |entries| ==> r[i] == (entries[i].0, Resolve(library, entries[i].1).value)
  {
    seq(|entries|, i reads library requires 0 <= i < |entries| && Resolve(library, entries[i].1).Ok? =>
      (entries[i].0, Resolve(library, entries[i].1).value))
  }

  // ---------------------------------------------------------------------
  // The action data

  /** `ChainData`: the sequences, in chain order, and the timeout in seconds. */
  class ChainData {
    /** `activation_mode`, from the class's properties. */
    var activationMode: ActionActivationMode
    /** `chain_sequences`. */
    var sequences: seq<seq<Profiles.LibraryAction>>
    var timeout: real

    /**
     * A new chain holds one empty sequence and never times out; its one
     * property, ActivateDisabled, makes its activation mode Disallowed.
     */
    constructor()
      ensures sequences == [[]] && timeout == 0.0
      ensures activationMode == Disallowed
    {
      var m := BaseClasses.InitialActivation([ActivateDisabled]);
      activationMode := m;
      sequences := [[]];
      timeout := 0.0;
    }

    /** `_valid_selectors`: "0", "1", ... one per sequence. */
    function ValidSelectors(): (r: seq<string>)
      reads this
      ensures |r| == |sequences|
      ensures forall i :: 0 <= i < |r| ==> ParseInt(r[i]) == Ok(i)
    {
      var n := |sequences|;
      var r := seq(n, i requires 0 <= i < n => ShowNat(i));
      forall i | 0 <= i < n ensures ParseInt(r[i]) == Ok(i) {
        SelectorRoundTrip(i);
      }
      r
    }

    /**
     * `_get_container`: the sequence the selector numbers. A selector `int`
     * cannot read raises ValueError; a number outside the chain raises
     * GremlinError.
     */
    function GetContainer(selector: string): (r: Result<seq<Profiles.LibraryAction>>)
      reads this
      ensures ParseInt(selector).Err? ==> r == Err(ValueError)
      ensures ParseInt(selector).Ok? ==>
                var index := ParseInt(selector).value;
                if 0 <= index < |sequences| then r == Ok(sequences[index]) else r == Err(GremlinError)
    {
      match ParseInt(selector)
      case Err(f) => Err(f)
      case Ok(index) =>
        if index < 0 || index >= |sequences| then Err(GremlinError) else Ok(sequences[index])
    }

    /** Every valid selector names its own sequence. */
    lemma SelectorsResolve(i: nat)
      requires i < |sequences|
      ensures GetContainer(ValidSelectors()[i]) == Ok(sequences[i])
    {
    }

    /**
     * `_from_xml` once the XML is read: `timeout` and, for each chain-N
     * element in document order, N with the ids it lists. The ids are
     * looked up in the library (GremlinError for an unknown one, leaving the
     * sequences as they were); the sequences end up ordered by N.
     */
    method FromParsed(timeout: real, entries: seq<(int, seq<Uuid>)>, library: Profiles.Library) returns (o: Outcome)
      modifies this
      ensures this.timeout == timeout
      ensures o.Raised? <==> !AllResolve(library, entries)
      ensures o.Raised? ==> o.fault == GremlinError && sequences == old(sequences)
      ensures o.Done? ==> sequences == InKeyOrder(ChainDict(Parsed(library, entries)))
    {
      this.timeout := timeout;
      var chainDict: map<int, seq<Profiles.LibraryAction>> := map[];
      var i := 0;
      while i < |entries|
        invariant 0 <= i <= |entries|
        invariant AllResolve(library, entries[..i])
        invariant chainDict == ChainDict(Parsed(library, entries[..i]))
        invariant this.timeout == timeout && sequences == old(sequences)
      {
        var actions := Resolve(library, entries[i].1);
        if actions.Err? {
          return Raised(actions.fault);
        }
        ParsedStep(library, entries, i);
        chainDict := chainDict[entries[i].0 := actions.value];
        i := i + 1;
      }
      assert entries[..i] == entries;
      sequences := InOrder(chainDict);
      return Done;
    }
  }

  /** The loop over `sorted(chain_dict.keys())` that appends each key's actions. */
  method InOrder(chainDict: map<int, seq<Profiles.LibraryAction>>) returns (result: seq<seq<Profiles.LibraryAction>>)
    ensures result == InKeyOrder(chainDict)
  {
    var keys := SortedInts(chainDict.Keys);
    result := [];
    var j := 0;
    while j < |keys|
      invariant 0 <= j <= |keys|
      invariant |result| == j
      invariant forall k :: 0 <= k < j ==> result[k] == chainDict[keys[k]]
    {
      result := result + [chainDict[keys[j]]];
      j := j + 1;
    }
  }

  /** One more element parsed: its key now maps to its actions. */
  lemma ParsedStep(library: Profiles.Library, entries: seq<(int, seq<Uuid>)>, i: nat)
    requires i < |entries| && AllResolve(library, entries[..i]) && Resolve(library, entries[i].1).Ok?
    ensures AllResolve(library, entries[..i + 1])
    ensures ChainDict(Parsed(library, entries[..i + 1])) ==
              ChainDict(Parsed(library, entries[..i]))[entries[i].0 := Resolve(library, entries[i].1).value]
  {
    var p := Parsed(library, entries[..i + 1]);
    assert entries[..i + 1][..i] == entries[..i];
    assert p[..i] == Parsed(library, entries[..i]);
  }

  // ---------------------------------------------------------------------
  // The functor

  /** The index a call dispatches on: 0 once the timeout has run out since the last call. */
  function StartIndex(index: nat, lastExecution: real, timeout: real, now: real): nat
  {
    if timeout > 0.0 && lastExecution + timeout < now then 0 else index
  }

  /** `ChainFunctor`: the position in the chain and the time of the last call. */
  class ChainFunctor {
    const data: ChainData
    /**
     * `functors`, built when the functor is: the sequence with selector
     * str(i) at position i (selectors are distinct, see SelectorRoundTrip).
     */
    const functors: seq<seq<Profiles.LibraryAction>>
    /** `current_index`. */
    var currentIndex: nat
    /** `last_execution`. */
    var lastExecution: real

    constructor(data: ChainData)
      ensures this.data == data && functors == data.sequences
      ensures currentIndex == 0 && lastExecution == 0.0
    {
      this.data := data;
      functors := data.sequences;
      currentIndex := 0;
      lastExecution := 0.0;
    }

    /**
     * `__call__` at time `now` with the (possibly modified) input value:
     * resets after a timeout, runs the functors of the current sequence
     * (`dispatched`), and on a truthy value moves on to the next sequence,
     * wrapping round at the number of sequences the data holds now. An
     * index without functors raises KeyError before anything runs; a chain
     * emptied since the functor was built raises ZeroDivisionError after.
     */
    method Call(now: real, value: InputValue) returns (dispatched: seq<Profiles.LibraryAction>, o: Outcome)
      modifies this
      ensures lastExecution == if data.timeout > 0.0 then now else old(lastExecution)
      ensures var start := StartIndex(old(currentIndex), old(lastExecution), data.timeout, now);
              && (start >= |functors| ==> dispatched == [] && o == Raised(KeyError) && currentIndex == start)
              && (start < |functors| ==> dispatched == functors[start])
              && (start < |functors| && !Truthy(value) ==> o == Done && currentIndex == start)
              && (start < |functors| && Truthy(value) && |data.sequences| == 0 ==>
                    o == Raised(ZeroDivisionError) && currentIndex == start)
              && (start < |functors| && Truthy(value) && |data.sequences| > 0 ==>
                    o == Done && currentIndex == (start + 1) % |data.sequences|)
      ensures data.timeout <= 0.0 ==> StartIndex(old(currentIndex), old(lastExecution), data.timeout, now) == old(currentIndex)
      ensures |functors| == |data.sequences| && old(currentIndex) < |functors| ==> o == Done && currentIndex < |functors|
    {
      if data.timeout > 0.0 {
        if lastExecution + data.timeout < now {
          currentIndex := 0;
        }
        lastExecution := now;
      }
      if currentIndex >= |functors| {
        return [], Raised(KeyError);
      }
      dispatched := functors[currentIndex];
      o := Done;
      if Truthy(value) {
        if |data.sequences| == 0 {
          o := Raised(ZeroDivisionError);
        } else {
          currentIndex := (currentIndex + 1) % |data.sequences|;
        }
      }
    }
  }

  // ---------------------------------------------------------------------
  // The UI model

  /** `ChainModel`: the editing operations of the chain's UI. */
  class ChainModel {
    const data: ChainData

    constructor(data: ChainData)
      ensures this.data == data
    {
      this.data := data;
    }

    /** `chainCount`. */
    function ChainCount(): (r: nat)
      reads data
      ensures r == |data.sequences|
    {
      |data.sequences|
    }

    /** `addSequence`: one more, empty, sequence at the end. */
    method AddSequence()
      modifies data
      ensures data.sequences == old(data.sequences) + [[]]
      ensures data.timeout == old(data.timeout)
    {
      data.sequences := data.sequences + [[]];
    }

    /** `removeSequence`: GremlinError outside [0, n); otherwise exactly that sequence goes. */
    method RemoveSequence(index: int) returns (o: Outcome)
      modifies data
      ensures data.timeout == old(data.timeout)
      ensures o.Raised? <==> !(0 <= index < |old(data.sequences)|)
      ensures o.Raised? ==> o.fault == GremlinError && data.sequences == old(data.sequences)
      ensures o.Done? ==> data.sequences == old(data.sequences)[..index] + old(data.sequences)[index + 1..]
    {
      if index < 0 || index >= |data.sequences| {
        return Raised(GremlinError);
      }
      data.sequences := data.sequences[..index] + data.sequences[index + 1..];
      return Done;
    }

    /** The `timeout` property setter. */
    method SetTimeout(value: real)
      modifies data
      ensures data.timeout == value && data.sequences == old(data.sequences)
    {
      if value != data.timeout {
        data.timeout := value;
      }
    }
  }
}
