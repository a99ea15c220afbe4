/**
 * The part of the PHP runtime that the plugin's core leans on, modelled on
 * values: PHP's dynamically typed values and ordered arrays, `empty()`,
 * truthiness, array reads and writes (`$a[$k]`, `$a[$k] = $v`, `$a[] = $v`),
 * `trim`, `preg_quote` and `str_replace`.
 */
module Php {

  datatype Option<T> = None | Some(value: T)

  /** An array key. PHP normalises numeric-string keys to integers; keys here
      are taken to be normalised already. */
  datatype Key = IntKey(i: int) | StrKey(s: string)

  /** A PHP value as the core sees it (floats and objects are not modelled).
      An array is an ordered list of key/value entries. */
  datatype Value =
    | Null
    | Bool(b: bool)
    | Int(i: int)
    | Str(s: string)
    | Arr(entries: seq<(Key, Value)>)

  /** `empty($s)` for a string: only "" and "0" are empty. */
  predicate EmptyString(s: string)
  {
    s == "" || s == "0"
  }

  /** `empty($v)`: null, false, 0, "", "0" and the empty array. */
  predicate Empty(v: Value)
  {
    match v
    case Null => true
    case Bool(b) => !b
    case Int(i) => i == 0
    case Str(s) => EmptyString(s)
    case Arr(es) => es == []
  }

  /** A value used as a condition (`if ( $v )`). */
  predicate Truthy(v: Value)
  {
    !Empty(v)
  }

  /** What `foreach` visits: the entries of an array, nothing for any other
      value (PHP only warns). */
  function Entries(v: Value): seq<(Key, Value)>
  {
    if v.Arr? then v.entries else []
  }

  predicate HasKey(es: seq<(Key, Value)>, k: Key)
  {
    exists i :: 0 <= i < |es| && es[i].0 == k
  }

  /** The position of the first entry with key `k`. */
  function KeyIndex(es: seq<(Key, Value)>, k: Key): (i: nat)
    requires HasKey(es, k)
    ensures i < |es| && es[i].0 == k
    ensures forall j :: 0 <= j < i ==> es[j].0 != k
  {
    if es[0].0 == k then 0
    else
      assert HasKey(es[1..], k) by {
        var i :| 0 <= i < |es| && es[i].0 == k;
        assert es[1..][i - 1].0 == k;
      }
      KeyIndex(es[1..], k) + 1
  }

  /** `$a[$k]` on the entries of an array; a missing key reads as null. */
  function LookupIn(es: seq<(Key, Value)>, k: Key): (r: Value)
    ensures !HasKey(es, k) ==> r == Null
    ensures HasKey(es, k) ==> r == es[KeyIndex(es, k)].1
  {
    if es == [] then Null
    else if es[0].0 == k then es[0].1
    else
      assert HasKey(es, k) ==> HasKey(es[1..], k) by {
        if HasKey(es, k) {
          var i :| 0 <= i < |es| && es[i].0 == k;
          assert es[1..][i - 1].0 == k;
        }
      }
      LookupIn(es[1..], k)
  }

  /** `$v[$k]` as read inside `empty()` or `isset()`: null for a missing key
      and for every value that is not an array. */
  function Lookup(v: Value, k: Key): Value
  {
    if v.Arr? then LookupIn(v.entries, k) else Null
  }

  /** `isset($v[$k])`. */
  predicate IsSet(v: Value, k: Key)
  {
    Lookup(v, k) != Null
  }

  /** `$a[$k] = $v`: an existing key keeps its position and takes the new
      value, a new key goes to the end. */
  function Put(es: seq<(Key, Value)>, k: Key, v: Value): (r: seq<(Key, Value)>)
    ensures LookupIn(r, k) == v
    ensures forall k' :: k' != k ==> LookupIn(r, k') == LookupIn(es, k')
    ensures HasKey(es, k) ==> |r| == |es|
    ensures !HasKey(es, k) ==> r == es + [(k, v)]
    ensures forall j :: 0 <= j < |r| ==> r[j] == (k, v) || r[j] in es
    ensures HasKey(es, k) ==> r == es[KeyIndex(es, k) := (k, v)]
  {
    if es == [] then [(k, v)]
    else if es[0].0 == k then
      assert [(k, v)] + es[1..] == es[0 := (k, v)];
      [(k, v)] + es[1..]
    else
      var rest := Put(es[1..], k, v);
      PutLookupsBehindHead(es, k, v, rest);
      PutShapeBehindHead(es, k, v, rest);
      PutEntriesBehindHead(es, k, v, rest);
      [es[0]] + rest
  }

  /** Reading `[es[0]] + rest` behind a head with another key reads `rest`. */
  lemma PutLookupsBehindHead(es: seq<(Key, Value)>, k: Key, v: Value, rest: seq<(Key, Value)>)
    requires es != [] && es[0].0 != k
    requires LookupIn(rest, k) == v
    requires forall k' :: k' != k ==> LookupIn(rest, k') == LookupIn(es[1..], k')
    ensures LookupIn([es[0]] + rest, k) == v
    ensures forall k' :: k' != k ==> LookupIn([es[0]] + rest, k') == LookupIn(es, k')
  {
    var r := [es[0]] + rest;
    assert r[0] == es[0] && r[1..] == rest;
  }

  /** The update in the tail, or the append to it, is one on the whole
      sequence. */
  lemma PutShapeBehindHead(es: seq<(Key, Value)>, k: Key, v: Value, rest: seq<(Key, Value)>)
    requires es != [] && es[0].0 != k
    requires !HasKey(es[1..], k) ==> rest == es[1..] + [(k, v)]
    requires HasKey(es[1..], k) ==> rest == es[1..][KeyIndex(es[1..], k) := (k, v)]
    ensures HasKey(es, k) ==> |[es[0]] + rest| == |es|
    ensures !HasKey(es, k) ==> [es[0]] + rest == es + [(k, v)]
    ensures HasKey(es, k) ==> [es[0]] + rest == es[KeyIndex(es, k) := (k, v)]
  {
    HasKeyBehindHead(es, k);
    if HasKey(es, k) {
      UpdateBehindHead(es, k, v);
    } else {
      assert [es[0]] + (es[1..] + [(k, v)]) == es + [(k, v)];
    }
  }

  /** Every entry of `[es[0]] + rest` is the new one or one of `es`. */
  lemma PutEntriesBehindHead(es: seq<(Key, Value)>, k: Key, v: Value, rest: seq<(Key, Value)>)
    requires es != []
    requires forall j :: 0 <= j < |rest| ==> rest[j] == (k, v) || rest[j] in es[1..]
    ensures forall j :: 0 <= j < |[es[0]] + rest| ==> ([es[0]] + rest)[j] == (k, v) || ([es[0]] + rest)[j] in es
  {
    var r := [es[0]] + rest;
    forall j | 0 <= j < |r| ensures r[j] == (k, v) || r[j] in es {
      if j > 0 {
        assert r[j] == rest[j - 1];
        if rest[j - 1] != (k, v) {
          var m :| 0 <= m < |es[1..]| && es[1..][m] == rest[j - 1];
          assert es[m + 1] == r[j];
        }
      }
    }
  }

  /** Behind a head with another key, the key is in the sequence exactly
      when it is in the tail. */
  lemma HasKeyBehindHead(es: seq<(Key, Value)>, k: Key)
    requires es != [] && es[0].0 != k
    ensures HasKey(es, k) <==> HasKey(es[1..], k)
  {
    if HasKey(es, k) {
      var i :| 0 <= i < |es| && es[i].0 == k;
      assert es[1..][i - 1].0 == k;
    }
    if HasKey(es[1..], k) {
      var i :| 0 <= i < |es[1..]| && es[1..][i].0 == k;
      assert es[i + 1].0 == k;
    }
  }

  /** Updating the first entry with key `k` behind a head with another key
      updates the tail. */
  lemma UpdateBehindHead(es: seq<(Key, Value)>, k: Key, v: Value)
    requires es != [] && es[0].0 != k && HasKey(es, k)
    ensures HasKey(es[1..], k)
    ensures [es[0]] + es[1..][KeyIndex(es[1..], k) := (k, v)] == es[KeyIndex(es, k) := (k, v)]
  {
    var l :| 0 <= l < |es| && es[l].0 == k;
    assert es[1..][l - 1].0 == k;
    var i := KeyIndex(es[1..], k);
    assert KeyIndex(es, k) == i + 1;
    var tail := es[1..][i := (k, v)];
    var a := [es[0]] + tail;
    var b := es[i + 1 := (k, v)];
    forall j | 0 <= j < |a| ensures a[j] == b[j] {
      if j > 0 {
        assert a[j] == tail[j - 1];
      }
    }
    assert a == b;
  }

  /* ---------------------------------------------------------------------
   * String keys: `$a[$s]` for a string `$s`
   * ------------------------------------------------------------------- */

  /** `PHP_INT_MAX` and `PHP_INT_MIN` on a 64-bit platform. */
  const IntMax: int := 0x7FFF_FFFF_FFFF_FFFF
  const IntMin: int := -0x8000_0000_0000_0000

  /** The decimal digits of `n` as `(string)$n` writes them: no leading
      zero, except for 0 itself. */
  function NatString(n: nat): (r: string)
    ensures r != [] && forall i :: 0 <= i < |r| ==> '0' <= r[i] <= '9'
    ensures r[0] == '0' ==> n == 0 && r == "0"
    decreases n
  {
    (if n < 10 then [] else NatString(n / 10)) + [(48 + n % 10) as char]
  }

  /** `(string)$n`. */
  function IntString(n: int): string
  {
    if n < 0 then "-" + NatString(-n) else NatString(n)
  }

  function DigitValue(c: char): nat
  {
    if '0' <= c <= '9' then c as int - 48 else 0
  }

  /** The value of a string of decimal digits. */
  function DigitsValue(s: string): nat
  {
    if s == [] then 0 else DigitsValue(s[..|s| - 1]) * 10 + DigitValue(s[|s| - 1])
  }

  /** The integer an optional minus sign and decimal digits denote. */
  function ParseInt(s: string): int
  {
    if s != [] && s[0] == '-' then -(DigitsValue(s[1..]) as int) else DigitsValue(s)
  }

  predicate AllDigits(s: string)
  {
    forall i :: 0 <= i < |s| ==> '0' <= s[i] <= '9'
  }

  /** Decimal digits without a leading zero, or "0". */
  predicate IsCanonicalNat(s: string)
  {
    s == "0" || (s != [] && '1' <= s[0] <= '9' && AllDigits(s))
  }

  /** The decimal form PHP gives an integer: canonical digits, with a minus
      sign before a non-zero value. */
  predicate IsCanonicalInt(s: string)
  {
    IsCanonicalNat(s) || (|s| >= 2 && s[0] == '-' && '1' <= s[1] <= '9' && AllDigits(s[1..]))
  }

  /** `s` is the canonical decimal form of an integer in the platform's
      range, which PHP turns into an integer array key. */
  predicate IsIntegerKey(s: string)
  {
    IsCanonicalInt(s) && IntMin <= ParseInt(s) <= IntMax
  }

  /** The key `$a[$s] = $v` stores under for a string `$s`: a canonical
      decimal integer in range becomes an integer key, any other string
      stays a string key, among them every string that does not start with
      a digit or a minus sign, a number with a leading zero, and "-0". */
  function ArrayKey(s: string): (k: Key)
    ensures k.StrKey? ==> k.s == s
    ensures k.IntKey? ==> IntMin <= k.i <= IntMax && IsCanonicalInt(s) && k.i == ParseInt(s)
    ensures || s == []
            || !('0' <= s[0] <= '9' || s[0] == '-')
            || (|s| >= 2 && s[0] == '0')
            || (|s| >= 2 && s[0] == '-' && s[1] == '0')
            ==> k == StrKey(s)
  {
    if IsIntegerKey(s) then IntKey(ParseInt(s)) else StrKey(s)
  }

  /** A string of digits is worth at least its first digit. */
  lemma {:induction false} DigitsValueAtLeastFirst(d: string)
    requires d != [] && AllDigits(d)
    ensures DigitsValue(d) >= DigitValue(d[0])
    decreases |d|
  {
    if |d| > 1 {
      var init := d[..|d| - 1];
      assert init[0] == d[0];
      DigitsValueAtLeastFirst(init);
    }
  }

  /** Printing the value of canonical digits gives the digits back. */
  lemma {:induction false} NatStringOfDigits(d: string)
    requires IsCanonicalNat(d)
    ensures NatString(DigitsValue(d)) == d
    decreases |d|
  {
    var n := DigitsValue(d);
    var c := d[|d| - 1];
    var init := d[..|d| - 1];
    if |d| == 1 {
      assert init == [];
      assert n == DigitsValue(init) * 10 + DigitValue(c);
      assert [(48 + n % 10) as char] == [c];
    } else {
      assert init[0] == d[0];
      assert AllDigits(init);
      DigitsValueAtLeastFirst(init);
      NatStringOfDigits(init);
      assert n == DigitsValue(init) * 10 + DigitValue(c);
      assert n / 10 == DigitsValue(init) && n % 10 == DigitValue(c);
      assert d == init + [c];
    }
  }

  lemma {:induction false} IntStringOfNegative(s: string)
    requires |s| >= 2 && s[0] == '-' && '1' <= s[1] <= '9' && AllDigits(s[1..])
    ensures IntString(ParseInt(s)) == s
  {
    var d := s[1..];
    assert d[0] == s[1];
    DigitsValueAtLeastFirst(d);
    NatStringOfDigits(d);
    assert ParseInt(s) == -(DigitsValue(d) as int);
    assert s == "-" + d;
  }

  /** Printing the value of a canonical integer gives it back. */
  lemma {:induction false} IntStringOfCanonical(s: string)
    requires IsCanonicalInt(s)
    ensures IntString(ParseInt(s)) == s
  {
    if IsCanonicalNat(s) {
      assert s[0] != '-';
      assert ParseInt(s) == DigitsValue(s);
      NatStringOfDigits(s);
    } else {
      IntStringOfNegative(s);
    }
  }

  /** Different strings are stored under different keys. */
  lemma ArrayKeyInjective(s: string, t: string)
    ensures ArrayKey(s) == ArrayKey(t) ==> s == t
  {
    if ArrayKey(s) == ArrayKey(t) && ArrayKey(s).IntKey? {
      IntStringOfCanonical(s);
      IntStringOfCanonical(t);
    }
  }

  lemma {:induction false} DigitsValueOfNatString(n: nat)
    ensures DigitsValue(NatString(n)) == n
    decreases n
  {
    var r := NatString(n);
    var d := [(48 + n % 10) as char];
    if n < 10 {
      assert r == d;
      assert r[..0] == [];
    } else {
      DigitsValueOfNatString(n / 10);
      assert r == NatString(n / 10) + d;
      assert r[..|r| - 1] == NatString(n / 10);
    }
  }

  lemma {:induction false} ParseIntOfNegative(n: int)
    requires n < 0
    ensures ParseInt(IntString(n)) == n
  {
    var t := NatString(-n);
    var s := "-" + t;
    assert IntString(n) == s;
    assert s != [] && s[0] == '-';
    assert s[1..] == t;
    DigitsValueOfNatString(-n);
    assert DigitsValue(s[1..]) == -n;
  }

  lemma {:induction false} ParseIntOfNonNegative(n: nat)
    ensures ParseInt(IntString(n)) == n
  {
    var t := NatString(n);
    assert IntString(n) == t;
    assert t[0] != '-';
    DigitsValueOfNatString(n);
  }

  lemma {:induction false} ParseIntOfIntString(n: int)
    ensures ParseInt(IntString(n)) == n
  {
    if n < 0 {
      ParseIntOfNegative(n);
    } else {
      ParseIntOfNonNegative(n);
    }
  }

  lemma {:induction false} IntStringIsCanonical(n: int)
    ensures IsCanonicalInt(IntString(n))
  {
    if n < 0 {
      var t := NatString(-n);
      var s := "-" + t;
      assert IntString(n) == s;
      assert s[1..] == t && s[1] == t[0];
      assert AllDigits(t);
    } else {
      var t := NatString(n);
      assert IntString(n) == t;
      assert AllDigits(t);
    }
  }

  /** The decimal form of an integer in range is stored under that
      integer. */
  lemma {:induction false} ArrayKeyOfIntString(n: int)
    requires IntMin <= n <= IntMax
    ensures ArrayKey(IntString(n)) == IntKey(n)
  {
    ParseIntOfIntString(n);
    IntStringIsCanonical(n);
    assert IsIntegerKey(IntString(n));
  }

  /** The key `$a[] = $v` gives the new entry: one more than the largest
      non-negative integer key, or 0 when there is none. */
  function NextIndex(es: seq<(Key, Value)>): (n: nat)
    ensures forall i :: 0 <= i < |es| && es[i].0.IntKey? ==> es[i].0.i < n
    ensures n > 0 ==> exists i :: 0 <= i < |es| && es[i].0 == IntKey(n - 1)
  {
    if es == [] then 0
    else
      var m := NextIndex(es[..|es| - 1]);
      var last := es[|es| - 1].0;
      assert forall i :: 0 <= i < |es| - 1 ==> es[..|es| - 1][i] == es[i];
      if last.IntKey? && last.i + 1 > m then last.i + 1 else m
  }

  /** `$a[] = $v`. */
  function Append(es: seq<(Key, Value)>, v: Value): seq<(Key, Value)>
  {
    es + [(IntKey(NextIndex(es)), v)]
  }

  /** A PHP list: the keys are 0, 1, 2, ... in order. */
  function ListOf(items: seq<Value>): (r: seq<(Key, Value)>)
    ensures |r| == |items|
    ensures forall i :: 0 <= i < |r| ==> r[i] == (IntKey(i), items[i])
  {
    seq(|items|, i requires 0 <= i < |items| => (IntKey(i), items[i]))
  }

  lemma {:induction false} NextIndexOfList(items: seq<Value>)
    ensures NextIndex(ListOf(items)) == |items|
  {
    if items != [] {
      var init := items[..|items| - 1];
      assert ListOf(items)[..|items| - 1] == ListOf(init);
      NextIndexOfList(init);
    }
  }

  /** Appending to a list extends the list. */
  lemma AppendToList(items: seq<Value>, v: Value)
    ensures Append(ListOf(items), v) == ListOf(items + [v])
  {
    NextIndexOfList(items);
  }

  /* ---------------------------------------------------------------------
   * trim()
   * ------------------------------------------------------------------- */

  /** The characters `trim()` strips by default: " \t\n\r\0\x0B". */
  predicate IsTrimmable(c: char)
  {
    c == ' ' || c == '\t' || c == '\n' || c == '\r' || c == '\0' || c == '\U{000B}'
  }

  /** The first position at or after `i` that `trim()` keeps at the front. */
  function TrimFrom(s: string, i: nat): (a: nat)
    requires i <= |s|
    ensures i <= a <= |s|
    ensures forall k :: i <= k < a ==> IsTrimmable(s[k])
    ensures a < |s| ==> !IsTrimmable(s[a])
    decreases |s| - i
  {
    if i < |s| && IsTrimmable(s[i]) then TrimFrom(s, i + 1) else i
  }

  /** The end, at most `j`, of what `trim()` keeps at the back, not below
      `lo`. */
  function TrimTo(s: string, lo: nat, j: nat): (b: nat)
    requires lo <= j <= |s|
    ensures lo <= b <= j
    ensures forall k :: b <= k < j ==> IsTrimmable(s[k])
    ensures b > lo ==> !IsTrimmable(s[b - 1])
    decreases j - lo
  {
    if j > lo && IsTrimmable(s[j - 1]) then TrimTo(s, lo, j - 1) else j
  }

  /** `trim($s)`: the slice of `s` between its leading and its trailing run
      of trimmable characters. */
  function Trim(s: string): (r: string)
    ensures |r| <= |s|
    ensures r != [] ==> !IsTrimmable(r[0]) && !IsTrimmable(r[|r| - 1])
    ensures r == [] <==> forall i :: 0 <= i < |s| ==> IsTrimmable(s[i])
    ensures (forall i :: 0 <= i < |s| ==> !IsTrimmable(s[i])) ==> r == s
    ensures exists a, b ::
              && 0 <= a <= b <= |s| && r == s[a..b]
              && (forall k :: 0 <= k < a ==> IsTrimmable(s[k]))
              && (forall k :: b <= k < |s| ==> IsTrimmable(s[k]))
  {
    var a := TrimFrom(s, 0);
    var b := TrimTo(s, a, |s|);
    assert a < |s| ==> b > a;
    assert s[a..b] == s[a..b];
    s[a..b]
  }

  /* ---------------------------------------------------------------------
   * str_replace()
   * ------------------------------------------------------------------- */

  /** `pat` occurs in `s` at position `k`. */
  predicate OccursAt(s: string, pat: string, k: nat)
  {
    k + |pat| <= |s| && s[k..k + |pat|] == pat
  }

  /** The leftmost occurrence of `pat` in `s` at or after `i`. */
  function IndexFrom(s: string, pat: string, i: nat): (r: Option<nat>)
    requires pat != []
    ensures r.Some? ==> i <= r.value && OccursAt(s, pat, r.value)
    ensures r.Some? ==> forall k: nat :: i <= k < r.value ==> !OccursAt(s, pat, k)
    ensures r.None? ==> forall k: nat :: i <= k ==> !OccursAt(s, pat, k)
    decreases |s| - i
  {
    if i + |pat| > |s| then None
    else if OccursAt(s, pat, i) then Some(i)
    else IndexFrom(s, pat, i + 1)
  }

  /** `strpos($s, $pat)`: the leftmost occurrence of `pat` in `s`. */
  function IndexOf(s: string, pat: string): (r: Option<nat>)
    requires pat != []
    ensures r.Some? ==> OccursAt(s, pat, r.value)
    ensures r.Some? ==> forall k: nat :: k < r.value ==> !OccursAt(s, pat, k)
    ensures r.None? ==> forall k: nat :: !OccursAt(s, pat, k)
  {
    IndexFrom(s, pat, 0)
  }

  /** `str_replace` from position `i` on: scans left to right and replaces
      every non-overlapping occurrence; an empty search string leaves the
      subject alone. */
  function ReplaceFrom(s: string, search: string, replace: string, i: nat): string
    requires i <= |s|
    decreases |s| - i
  {
    if search == [] || i + |search| > |s| then s[i..]
    else if OccursAt(s, search, i) then replace + ReplaceFrom(s, search, replace, i + |search|)
    else [s[i]] + ReplaceFrom(s, search, replace, i + 1)
  }

  /** `str_replace($search, $replace, $s)` for one search string. An empty or
      absent search string leaves the subject alone, and a replacement as
      long as the search string keeps the subject's length. */
  function StrReplace(s: string, search: string, replace: string): (r: string)
    ensures search == [] ==> r == s
    ensures search != [] && IndexOf(s, search).None? ==> r == s
    ensures |replace| == |search| ==> |r| == |s|
  {
    ReplaceFromLength(s, search, replace, 0);
    if search != [] && IndexOf(s, search).None? then
      ReplaceFromWithout(s, search, replace, 0);
      ReplaceFrom(s, search, replace, 0)
    else
      ReplaceFrom(s, search, replace, 0)
  }

  /** Without an occurrence from `i` on, the rest of the subject is kept. */
  lemma {:induction false} ReplaceFromWithout(s: string, search: string, replace: string, i: nat)
    requires search != [] && i <= |s|
    requires IndexFrom(s, search, i).None?
    ensures ReplaceFrom(s, search, replace, i) == s[i..]
    decreases |s| - i
  {
    if i + |search| <= |s| {
      ReplaceFromStep(s, search, replace, i);
      ReplaceFromWithout(s, search, replace, i + 1);
      assert [s[i]] + s[i + 1..] == s[i..];
    }
  }

  /** The text before the first occurrence from `i` on is kept, and that
      occurrence is replaced. */
  lemma {:induction false} ReplaceFromAtFirst(s: string, search: string, replace: string, i: nat, j: nat)
    requires search != [] && i <= |s|
    requires IndexFrom(s, search, i) == Some(j)
    ensures j + |search| <= |s|
    ensures ReplaceFrom(s, search, replace, i)
      == s[i..j] + (replace + ReplaceFrom(s, search, replace, j + |search|))
    decreases j - i
  {
    var rest := ReplaceFrom(s, search, replace, j + |search|);
    ReplaceFromStep(s, search, replace, i);
    if OccursAt(s, search, i) {
      assert j == i;
      assert ReplaceFrom(s, search, replace, i) == replace + rest;
      assert s[i..j] + (replace + rest) == replace + rest;
    } else {
      ReplaceFromAtFirst(s, search, replace, i + 1, j);
      ConsSlice(s, i, j, replace + rest);
      assert ReplaceFrom(s, search, replace, i) == [s[i]] + (s[i + 1..j] + (replace + rest));
    }
  }

  lemma ConsSlice(s: string, i: nat, j: nat, t: string)
    requires i < j <= |s|
    ensures [s[i]] + (s[i + 1..j] + t) == s[i..j] + t
  {
    assert [s[i]] + s[i + 1..j] == s[i..j];
  }

  /** One step of the scan at `i`. */
  lemma ReplaceFromStep(s: string, search: string, replace: string, i: nat)
    requires search != [] && i + |search| <= |s|
    ensures OccursAt(s, search, i) ==>
      ReplaceFrom(s, search, replace, i) == replace + ReplaceFrom(s, search, replace, i + |search|)
    ensures !OccursAt(s, search, i) ==>
      ReplaceFrom(s, search, replace, i) == [s[i]] + ReplaceFrom(s, search, replace, i + 1)
  {
  }

  /** `str_replace` described by its first occurrence: without an occurrence
      the subject is returned unchanged; otherwise the text before the
      leftmost occurrence is kept verbatim, that occurrence becomes
      `replace`, and the rest of the subject after it is processed the same
      way. */
  lemma StrReplaceByFirstOccurrence(s: string, search: string, replace: string)
    requires search != []
    ensures IndexOf(s, search).None? ==> StrReplace(s, search, replace) == s
    ensures IndexOf(s, search).Some? ==>
      var j := IndexOf(s, search).value;
      StrReplace(s, search, replace) == s[..j] + replace + ReplaceFrom(s, search, replace, j + |search|)
  {
    if IndexOf(s, search).None? {
      ReplaceFromWithout(s, search, replace, 0);
    } else {
      var j := IndexOf(s, search).value;
      ReplaceFromAtFirst(s, search, replace, 0, j);
      var rest := ReplaceFrom(s, search, replace, j + |search|);
      assert StrReplace(s, search, replace) == s[0..j] + (replace + rest);
      assert s[0..j] == s[..j];
      assert s[..j] + (replace + rest) == s[..j] + replace + rest;
    }
  }

  /** The length of what `str_replace` makes of the rest of the subject
      moves in the direction of `|replace| - |search|`. */
  lemma {:induction false} ReplaceFromLength(s: string, search: string, replace: string, i: nat)
    requires i <= |s|
    ensures |replace| >= |search| ==> |ReplaceFrom(s, search, replace, i)| >= |s| - i
    ensures |replace| <= |search| ==> |ReplaceFrom(s, search, replace, i)| <= |s| - i
    decreases |s| - i
  {
    if search == [] || i + |search| > |s| {
    } else if OccursAt(s, search, i) {
      ReplaceFromLength(s, search, replace, i + |search|);
    } else {
      ReplaceFromLength(s, search, replace, i + 1);
    }
  }

  /** Replacing an occurring string by a different one changes the subject. */
  lemma StrReplaceChanges(s: string, search: string, replace: string, k: nat)
    requires search != [] && OccursAt(s, search, k)
    requires replace != search
    ensures StrReplace(s, search, replace) != s
  {
    StrReplaceByFirstOccurrence(s, search, replace);
    var j := IndexOf(s, search).value;
    var tail := ReplaceFrom(s, search, replace, j + |search|);
    ReplaceFromLength(s, search, replace, j + |search|);
    var r := StrReplace(s, search, replace);
    assert r == s[..j] + replace + tail;
    if |replace| == |search| {
      assert r[j..j + |replace|] == replace;
      assert s[j..j + |search|] == search;
    }
  }

  /** Replacing an occurring string by a different one: the leftmost
      occurrence is at or before the known one, the text before it is kept,
      it becomes `replace`, and the subject changes. */
  lemma StrReplaceSplice(s: string, search: string, replace: string, at: nat)
    requires search != [] && OccursAt(s, search, at)
    requires replace != search
    ensures IndexOf(s, search).Some? && IndexOf(s, search).value <= at
    ensures var j := IndexOf(s, search).value;
      StrReplace(s, search, replace) == s[..j] + replace + ReplaceFrom(s, search, replace, j + |search|)
    ensures StrReplace(s, search, replace) != s
  {
    StrReplaceByFirstOccurrence(s, search, replace);
    StrReplaceChanges(s, search, replace, at);
  }
}
