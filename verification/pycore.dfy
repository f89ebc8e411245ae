// Python-level semantics that the modelled code relies on: exceptions as
// values, list indexing with negative indices, `list.insert`, `del lst[i]`,
// and the code-point ordering Python uses to compare and sort strings.
module PyCore {

  datatype Option<T> = None | Some(value: T)

  /** The Python exceptions raised by the modelled code. */
  datatype Fault =
    | GremlinError
    | ProfileError
    | KeyError
    | IndexError
    | TypeError
    | ValueError
    | AttributeError
    | ZeroDivisionError
    | AssertionError
    | NonTermination   // a `while` loop of the source that never ends

  /** The value a call returns, or the exception it raises. */
  datatype Result<T> = Ok(value: T) | Err(fault: Fault)

  /** Outcome of a call that returns nothing on success. */
  datatype Outcome = Done | Raised(fault: Fault)

  // ---------------------------------------------------------------------
  // Lists

  /** `s[i]` is defined for -len(s) <= i < len(s). */
  predicate InRange(n: nat, i: int) { 0 <= n + i && i < n }

  /** The position `s[i]` refers to: a negative index counts from the end. */
  function Position(n: nat, i: int): (k: nat)
    requires InRange(n, i)
    ensures k < n
    ensures i >= 0 ==> k == i
    ensures i < 0 ==> k + (-i) == n
  {
    if i < 0 then n + i else i
  }

  /** `s[i]`, raising IndexError outside the list. */
  function PyIndex<T>(s: seq<T>, i: int): (r: Result<T>)
    ensures r.Ok? <==> InRange(|s|, i)
    ensures r.Err? ==> r.fault == IndexError
    ensures r.Ok? ==> exists k :: 0 <= k < |s| && r.value == s[k] && (k == i || k - |s| == i)
  {
    if InRange(|s|, i) then Ok(s[Position(|s|, i)]) else Err(IndexError)
  }

  /** `del s[i]`, raising IndexError outside the list. */
  function PyDelete<T>(s: seq<T>, i: int): (r: Result<seq<T>>)
    ensures r.Ok? <==> InRange(|s|, i)
    ensures r.Err? ==> r.fault == IndexError
    ensures r.Ok? ==> |r.value| + 1 == |s|
    ensures r.Ok? ==> var k := Position(|s|, i);
                      r.value[..k] == s[..k] && r.value[k..] == s[k + 1..]
  {
    if InRange(|s|, i) then
      var k := Position(|s|, i);
      Ok(s[..k] + s[k + 1..])
    else Err(IndexError)
  }

  /** Where `list.insert(i, x)` puts `x`: Python clamps the index into [0, len]. */
  function InsertPosition(n: nat, i: int): (k: nat)
    ensures k <= n
    ensures 0 <= i <= n ==> k == i
    ensures i > n ==> k == n
    ensures 0 <= n + i && i < 0 ==> k + (-i) == n
    ensures n + i < 0 ==> k == 0
  {
    if i < 0 then (if n + i < 0 then 0 else n + i) else if i > n then n else i
  }

  /** `s.insert(i, x)`: never fails, whatever the index. */
  function PyInsert<T>(s: seq<T>, i: int, x: T): (r: seq<T>)
    ensures |r| == |s| + 1
    ensures var k := InsertPosition(|s|, i);
            r[k] == x && r[..k] == s[..k] && r[k + 1..] == s[k..]
  {
    var k := InsertPosition(|s|, i);
    s[..k] + [x] + s[k..]
  }

  /** Index of the first occurrence of `x`, as `list.index` finds it. */
  function FirstIndex<T(==)>(s: seq<T>, x: T): (k: nat)
    requires x in s
    ensures k < |s| && s[k] == x
    ensures forall j :: 0 <= j < k ==> s[j] != x
  {
    if s[0] == x then 0 else 1 + FirstIndex(s[1..], x)
  }

  /** No element is listed twice. */
  predicate Distinct<T(==)>(s: seq<T>)
  {
    forall i, j :: 0 <= i < j < |s| ==> s[i] != s[j]
  }

  // ---------------------------------------------------------------------
  // Strings, compared code point by code point as Python does

  predicate StrLt(a: string, b: string)
  {
    if |a| == 0 then |b| > 0
    else if |b| == 0 then false
    else if a[0] != b[0] then a[0] < b[0]
    else StrLt(a[1..], b[1..])
  }

  predicate StrLe(a: string, b: string) { a == b || StrLt(a, b) }

  lemma {:induction false} StrLtIrreflexive(a: string)
    ensures !StrLt(a, a)
  {
    if |a| > 0 { StrLtIrreflexive(a[1..]); }
  }

  lemma {:induction false} StrLtAsymmetric(a: string, b: string)
    ensures StrLt(a, b) ==> !StrLt(b, a)
  {
    if |a| > 0 && |b| > 0 && a[0] == b[0] { StrLtAsymmetric(a[1..], b[1..]); }
  }

  lemma {:induction false} StrLtTransitive(a: string, b: string, c: string)
    requires StrLt(a, b) && StrLt(b, c)
    ensures StrLt(a, c)
  {
    if |a| > 0 && a[0] == b[0] && b[0] == c[0] {
      StrLtTransitive(a[1..], b[1..], c[1..]);
    }
  }

  lemma {:induction false} StrLtTotal(a: string, b: string)
    ensures a == b || StrLt(a, b) || StrLt(b, a)
  {
    if |a| > 0 && |b| > 0 && a[0] == b[0] {
      StrLtTotal(a[1..], b[1..]);
      if a[1..] == b[1..] {
        assert a == [a[0]] + a[1..] && b == [b[0]] + b[1..];
      }
    }
  }

  lemma StrOrder()
    ensures forall a, b :: StrLt(a, b) ==> !StrLt(b, a)
    ensures forall a, b, c :: StrLt(a, b) && StrLt(b, c) ==> StrLt(a, c)
    ensures forall a, b :: a == b || StrLt(a, b) || StrLt(b, a)
  {
    forall a, b ensures StrLt(a, b) ==> !StrLt(b, a) { StrLtAsymmetric(a, b); }
    forall a, b, c | StrLt(a, b) && StrLt(b, c) ensures StrLt(a, c) { StrLtTransitive(a, b, c); }
    forall a, b ensures a == b || StrLt(a, b) || StrLt(b, a) { StrLtTotal(a, b); }
  }

  predicate StrictlySorted(s: seq<string>)
  {
    forall i, j :: 0 <= i < j < |s| ==> StrLt(s[i], s[j])
  }

  lemma {:induction false} LeastExists(s: set<string>)
    requires s != {}
    ensures exists m :: m in s && forall o :: o in s ==> StrLe(m, o)
    decreases |s|
  {
    var x :| x in s;
    if s - {x} == {} {
      forall o | o in s ensures o == x {
        assert o !in s - {x};
      }
      assert x in s && forall o :: o in s ==> StrLe(x, o);
    } else {
      LeastExists(s - {x});
      var m :| m in s - {x} && forall o :: o in s - {x} ==> StrLe(m, o);
      LeastStep(s, x, m);
    }
  }

  /** The least of `s` is `x` or the least of the rest, whichever comes first. */
  lemma LeastStep(s: set<string>, x: string, m: string)
    requires x in s && m in s - {x}
    requires forall o :: o in s - {x} ==> StrLe(m, o)
    ensures exists l :: l in s && forall o :: o in s ==> StrLe(l, o)
  {
    if StrLt(x, m) {
      forall o | o in s ensures StrLe(x, o) {
        if o != x && o != m {
          assert o in s - {x};
          StrLtTransitive(x, m, o);
        }
      }
    } else {
      StrLtTotal(x, m);
      forall o | o in s ensures StrLe(m, o) {
        if o != x { assert o in s - {x}; }
      }
    }
  }

  /** The strings of `s` in ascending order, as `sorted()` lists them. */
  function Sorted(s: set<string>): (r: seq<string>)
    ensures |r| == |s|
    ensures forall x :: x in r <==> x in s
    ensures StrictlySorted(r)
    decreases |s|
  {
    if s == {} then []
    else
      LeastExists(s);
      LeastUnique(s);
      var m :| m in s && forall o :: o in s ==> StrLe(m, o);
      var rest := Sorted(s - {m});
      LeastFirst(m, rest);
      [m] + rest
  }

  /** A set has at most one least string. */
  lemma LeastUnique(s: set<string>)
    ensures forall m, m' :: m in s && (forall o :: o in s ==> StrLe(m, o)) && m' in s && (forall o :: o in s ==> StrLe(m', o)) ==> m == m'
  {
    forall m, m' | m in s && (forall o :: o in s ==> StrLe(m, o)) && m' in s && (forall o :: o in s ==> StrLe(m', o))
      ensures m == m'
    {
      assert StrLe(m, m') && StrLe(m', m);
      StrLtAsymmetric(m, m');
    }
  }

  /** A string below every string of a sorted list can go in front of it. */
  lemma LeastFirst(m: string, rest: seq<string>)
    requires StrictlySorted(rest) && forall x :: x in rest ==> x != m && StrLe(m, x)
    ensures StrictlySorted([m] + rest)
  {
    var r := [m] + rest;
    forall i, j | 0 <= i < j < |r| ensures StrLt(r[i], r[j]) {
      if i == 0 {
        assert r[i] == m && r[j] == rest[j - 1] && rest[j - 1] in rest;
      } else {
        assert r[i] == rest[i - 1] && r[j] == rest[j - 1];
      }
    }
  }

  // ---------------------------------------------------------------------
  // Pairs of strings, compared as Python compares tuples

  predicate PairLe(a: (string, string), b: (string, string))
  {
    StrLt(a.0, b.0) || (a.0 == b.0 && StrLe(a.1, b.1))
  }

  lemma PairLeTotal(a: (string, string), b: (string, string))
    ensures PairLe(a, b) || PairLe(b, a)
  {
    StrLtTotal(a.0, b.0);
    StrLtTotal(a.1, b.1);
  }

  lemma PairLeTransitive(a: (string, string), b: (string, string), c: (string, string))
    requires PairLe(a, b) && PairLe(b, c)
    ensures PairLe(a, c)
  {
    StrOrder();
  }

  // ---------------------------------------------------------------------
  // `str.strip()`

  /**
   * The ASCII characters `str.isspace()` accepts, which `str.strip()` and
   * `int()` remove: space, tab, line feed, vertical tab, form feed, carriage
   * return and the four separators 0x1C-0x1F.
   */
  predicate IsSpace(c: char)
  {
    c == ' ' || '\t' <= c <= '\r' || '\U{001C}' <= c <= '\U{001F}'
  }

  function StripLeft(s: string): (r: string)
    ensures |r| <= |s| && r == s[|s| - |r|..]
    ensures forall k :: 0 <= k < |s| - |r| ==> IsSpace(s[k])
    ensures r == [] || !IsSpace(r[0])
  {
    if s != [] && IsSpace(s[0]) then StripLeft(s[1..]) else s
  }

  function StripRight(s: string): (r: string)
    ensures |r| <= |s| && r == s[..|r|]
    ensures forall k :: |r| <= k < |s| ==> IsSpace(s[k])
    ensures r == [] || !IsSpace(r[|r| - 1])
  {
    if s != [] && IsSpace(s[|s| - 1]) then StripRight(s[..|s| - 1]) else s
  }

  /** Stripping both ends leaves nothing exactly when the text is blank. */
  lemma StripBothEnds(s: string)
    ensures StripRight(StripLeft(s)) == [] <==> forall k :: 0 <= k < |s| ==> IsSpace(s[k])
  {
    var left := StripLeft(s);
    var r := StripRight(left);
    if r == [] {
      assert left == [];
    } else {
      assert s[|s| - |left|] == left[0];
    }
  }

  /** Text that neither starts nor ends with white space is left as it is. */
  lemma StripKeeps(s: string)
    ensures s == [] || (!IsSpace(s[0]) && !IsSpace(s[|s| - 1])) ==> Strip(s) == s
  {
    if s != [] && !IsSpace(s[0]) && !IsSpace(s[|s| - 1]) {
      assert StripLeft(s) == s;
    }
  }

  /** Stripping leaves the slice of the text between its leading and its trailing white space. */
  lemma StripIsSlice(s: string) returns (p: nat, q: nat)
    ensures p <= q <= |s| && Strip(s) == s[p..q]
    ensures forall k :: 0 <= k < p ==> IsSpace(s[k])
    ensures forall k :: q <= k < |s| ==> IsSpace(s[k])
  {
    var left := StripLeft(s);
    var r := StripRight(left);
    p := |s| - |left|;
    q := p + |r|;
    forall k | q <= k < |s| ensures IsSpace(s[k]) {
      assert s[k] == left[k - p];
    }
  }

  /** The same slice, character by character. */
  lemma StripAt(s: string) returns (p: nat, q: nat)
    ensures p <= q <= |s| && |Strip(s)| == q - p
    ensures forall k :: 0 <= k < q - p ==> Strip(s)[k] == s[p + k]
    ensures forall k :: 0 <= k < p ==> IsSpace(s[k])
    ensures forall k :: q <= k < |s| ==> IsSpace(s[k])
  {
    p, q := StripIsSlice(s);
  }

  /** Text made of white space only. */
  predicate Blank(s: string)
  {
    forall k :: 0 <= k < |s| ==> IsSpace(s[k])
  }

  /** Left-stripping text with white space appended: all of it goes when the text is blank, none of the appended space otherwise. */
  lemma {:induction false} StripLeftSpaceEnd(s: string, d: char)
    requires IsSpace(d)
    ensures Blank(s) ==> StripLeft(s + [d]) == []
    ensures !Blank(s) ==> StripLeft(s + [d]) == StripLeft(s) + [d]
    decreases |s|
  {
    if s == [] {
      assert StripLeft([d]) == StripLeft([d][1..]);
    } else if IsSpace(s[0]) {
      var rest := s[1..];
      assert (s + [d])[1..] == rest + [d];
      BlankAfterSpace(s);
      StripLeftSpaceEnd(rest, d);
    }
  }

  /** Text starting with white space is blank exactly when the text after it is. */
  lemma BlankAfterSpace(s: string)
    requires s != [] && IsSpace(s[0])
    ensures Blank(s) == Blank(s[1..])
  {
    var rest := s[1..];
    if Blank(rest) {
      forall k | 0 <= k < |s| ensures IsSpace(s[k]) {
        if k > 0 {
          assert s[k] == rest[k - 1];
        }
      }
    }
  }

  /** Right-stripping ignores one white-space character appended to the text. */
  lemma StripRightSpaceEnd(s: string, d: char)
    requires IsSpace(d)
    ensures StripRight(s + [d]) == StripRight(s)
  {
    assert (s + [d])[..|s|] == s;
  }

  /** One white-space character on each side of a text is stripped away with the rest. */
  lemma StripPadded(s: string, c: char, d: char)
    requires IsSpace(c) && IsSpace(d)
    ensures Strip([c] + s + [d]) == Strip(s)
  {
    BothEndsPadded(s, c, d);
  }

  /** Left- then right-stripping, with one white-space character added on each side. */
  lemma BothEndsPadded(s: string, c: char, d: char)
    requires IsSpace(c) && IsSpace(d)
    ensures StripRight(StripLeft([c] + s + [d])) == StripRight(StripLeft(s))
  {
    var padded := [c] + s + [d];
    assert StripLeft(padded) == StripLeft(s + [d]) by {
      assert padded[1..] == s + [d];
    }
    StripLeftSpaceEnd(s, d);
    if Blank(s) {
      assert StripRight(StripLeft(padded)) == [];
      StripBothEnds(s);
    } else {
      StripRightSpaceEnd(StripLeft(s), d);
    }
  }

  /** `str.strip()`: a slice of the text with no white space at either end, empty exactly for blank text. */
  function Strip(s: string): (r: string)
    ensures r == [] || (!IsSpace(r[0]) && !IsSpace(r[|r| - 1]))
    ensures r == [] <==> forall k :: 0 <= k < |s| ==> IsSpace(s[k])
    ensures |r| <= |s|
  {
    var left := StripLeft(s);
    StripBothEnds(s);
    StripRight(left)
  }
}
