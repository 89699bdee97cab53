/** The slice of Go's `strings` and `strconv` packages the services rely on:
    prefix and suffix tests, single-character splitting, Unicode white-space
    trimming, and decimal rendering and parsing. */
module Strings {
  import opened Wrappers

  // ---------------------------------------------------------------------
  // Prefixes and suffixes (strings.HasPrefix, HasSuffix, TrimPrefix)
  // ---------------------------------------------------------------------

  predicate HasPrefix(s: string, p: string)
  {
    |p| <= |s| && s[..|p|] == p
  }

  predicate HasSuffix(s: string, p: string)
  {
    |p| <= |s| && s[|s| - |p|..] == p
  }

  /** strings.TrimPrefix: removes one leading occurrence of `p`, if any. */
  function TrimPrefix(s: string, p: string): (r: string)
    ensures HasPrefix(s, p) ==> p + r == s
    ensures !HasPrefix(s, p) ==> r == s
  {
    if HasPrefix(s, p) then s[|p|..] else s
  }

  // ---------------------------------------------------------------------
  // strings.Split with a one-character separator, and its inverse
  // ---------------------------------------------------------------------

  /** strings.Split(s, string(sep)): the maximal separator-free fields, in
      order; the empty string splits into one empty field. */
  function Split(s: string, sep: char): (parts: seq<string>)
    ensures |parts| >= 1
    ensures forall i :: 0 <= i < |parts| ==> sep !in parts[i]
    decreases |s|
  {
    if |s| == 0 then [""]
    else
      var tail := Split(s[1..], sep);
      if s[0] == sep then [""] + tail
      else [[s[0]] + tail[0]] + tail[1..]
  }

  /** strings.Join(parts, string(sep)). */
  function Join(parts: seq<string>, sep: char): string
    requires |parts| >= 1
  {
    if |parts| == 1 then parts[0] else parts[0] + [sep] + Join(parts[1..], sep)
  }

  /** Splitting loses nothing: joining the fields back gives the input. */
  lemma {:induction false} JoinSplit(s: string, sep: char)
    ensures Join(Split(s, sep), sep) == s
    decreases |s|
  {
    if |s| > 0 {
      var tail := Split(s[1..], sep);
      JoinSplit(s[1..], sep);
      if s[0] == sep {
        assert Split(s, sep) == [""] + tail;
        JoinEmptyFirst(tail, sep);
      } else {
        assert Split(s, sep) == [[s[0]] + tail[0]] + tail[1..];
        JoinExtendFirst(s[0], tail, sep);
      }
      assert [s[0]] + s[1..] == s;
    }
  }

  /** An empty first field contributes only its separator. */
  lemma JoinEmptyFirst(tail: seq<string>, sep: char)
    requires |tail| >= 1
    ensures Join([""] + tail, sep) == [sep] + Join(tail, sep)
  {
    assert ([""] + tail)[1..] == tail;
  }

  /** A character put in front of the first field is put in front of the join. */
  lemma JoinExtendFirst(c: char, tail: seq<string>, sep: char)
    requires |tail| >= 1
    ensures Join([[c] + tail[0]] + tail[1..], sep) == [c] + Join(tail, sep)
  {
    var parts := [[c] + tail[0]] + tail[1..];
    if |tail| > 1 {
      assert parts[1..] == tail[1..];
    }
  }

  /** Splitting a join of separator-free fields gives the fields back. */
  lemma {:induction false} SplitJoin(parts: seq<string>, sep: char)
    requires |parts| >= 1
    requires forall i :: 0 <= i < |parts| ==> sep !in parts[i]
    ensures Split(Join(parts, sep), sep) == parts
    decreases |Join(parts, sep)|, |parts|
  {
    if |parts| == 1 {
      SplitFree(parts[0], sep);
    } else {
      var rest := Join(parts[1..], sep);
      assert Join(parts, sep) == parts[0] + [sep] + rest;
      SplitJoin(parts[1..], sep);
      SplitAfterField(parts[0], sep, rest);
      assert [parts[0]] + parts[1..] == parts;
    }
  }

  /** A separator-free string is a single field. */
  lemma {:induction false} SplitFree(s: string, sep: char)
    requires sep !in s
    ensures Split(s, sep) == [s]
    decreases |s|
  {
    if |s| > 0 {
      assert sep !in s[1..] by {
        forall k | 0 <= k < |s[1..]| ensures s[1..][k] != sep {
          assert s[1..][k] == s[k + 1];
        }
      }
      SplitFree(s[1..], sep);
      assert [s[0]] + s[1..] == s;
    }
  }

  /** A field followed by the separator contributes exactly that field. */
  lemma {:induction false} SplitAfterField(f: string, sep: char, rest: string)
    requires sep !in f
    ensures Split(f + [sep] + rest, sep) == [f] + Split(rest, sep)
    decreases |f|
  {
    var s := f + [sep] + rest;
    if |f| == 0 {
      assert s[0] == sep;
      assert s[1..] == rest;
    } else {
      assert s[0] == f[0];
      assert s[1..] == f[1..] + [sep] + rest;
      assert sep !in f[1..] by {
        forall k | 0 <= k < |f[1..]| ensures f[1..][k] != sep {
          assert f[1..][k] == f[k + 1];
        }
      }
      SplitAfterField(f[1..], sep, rest);
      var tail := Split(s[1..], sep);
      assert tail == [f[1..]] + Split(rest, sep);
      assert [f[0]] + f[1..] == f;
    }
  }

  /** The index of the first `sep` in `s`, or |s| when there is none. */
  function FirstSep(s: string, sep: char): (k: nat)
    ensures k <= |s|
    ensures forall i :: 0 <= i < k ==> s[i] != sep
    ensures k < |s| ==> s[k] == sep
    decreases |s|
  {
    if |s| == 0 || s[0] == sep then 0 else 1 + FirstSep(s[1..], sep)
  }

  /** The first field of a split ends at the first separator. */
  lemma SplitAtFirst(s: string, sep: char)
    ensures FirstSep(s, sep) == |s| ==> Split(s, sep) == [s]
    ensures FirstSep(s, sep) < |s| ==>
      var k := FirstSep(s, sep);
      Split(s, sep) == [s[..k]] + Split(s[k + 1..], sep)
  {
    var k := FirstSep(s, sep);
    if k == |s| {
      SplitFree(s, sep);
    } else {
      assert sep !in s[..k] by {
        forall i | 0 <= i < k ensures s[..k][i] != sep {
          assert s[..k][i] == s[i];
        }
      }
      assert s == s[..k] + [sep] + s[k + 1..];
      SplitAfterField(s[..k], sep, s[k + 1..]);
    }
  }

  /** A string's first field is the separator-free word `w`, with more fields
      after it, exactly when the string starts with `w` and a separator. */
  lemma SplitLeadingField(s: string, w: string, sep: char)
    requires sep !in w
    ensures (|Split(s, sep)| >= 2 && Split(s, sep)[0] == w) <==> HasPrefix(s, w + [sep])
    ensures HasPrefix(s, w + [sep]) ==> Split(s, sep) == [w] + Split(s[|w| + 1..], sep)
  {
    var k := FirstSep(s, sep);
    SplitAtFirst(s, sep);
    if HasPrefix(s, w + [sep]) {
      assert s[|w|] == (w + [sep])[|w|] == sep;
      assert forall i :: 0 <= i < |w| ==> s[i] == (w + [sep])[i] == w[i];
      assert k == |w|;
      assert s[..k] == (w + [sep])[..k] == w;
    }
    if |Split(s, sep)| >= 2 && Split(s, sep)[0] == w {
      assert k < |s|;
      assert s[..k + 1] == s[..k] + [sep];
    }
  }

  /** The leading fields of a split are the separator-free words `ws`, with
      more fields after them, exactly when the string starts with their join
      and a separator. */
  lemma {:induction false} SplitLeadingFields(s: string, ws: seq<string>, sep: char)
    requires |ws| >= 1
    requires forall i :: 0 <= i < |ws| ==> sep !in ws[i]
    ensures (|Split(s, sep)| > |ws| && Split(s, sep)[..|ws|] == ws) <==>
            HasPrefix(s, Join(ws, sep) + [sep])
    decreases |ws|
  {
    var w := ws[0];
    var parts := Split(s, sep);
    if |ws| == 1 {
      SplitLeadingField(s, w, sep);
      assert Join(ws, sep) == w;
      if |parts| > 1 && parts[..1] == ws {
        assert parts[0] == parts[..1][0] == w;
      }
      if |parts| >= 2 && parts[0] == w {
        assert parts[..1] == [w] == ws;
      }
    } else {
      var tail := ws[1..];
      var rest := if |w| + 1 <= |s| then s[|w| + 1..] else "";
      assert ws == [w] + tail;
      assert Join(ws, sep) == w + [sep] + Join(tail, sep);
      SplitLeadingFields(rest, tail, sep);
      if HasPrefix(s, Join(ws, sep) + [sep]) {
        LeadingFieldsFromPrefix(s, w, tail, sep, rest);
      }
      if |parts| > |ws| && parts[..|ws|] == ws {
        PrefixFromLeadingFields(s, w, tail, sep, rest);
      }
    }
  }

  /** The step from the tail's fields to the whole: a string that starts
      with w, a separator, and the tail's join and a separator splits into
      w followed by the tail's fields. */
  lemma LeadingFieldsFromPrefix(s: string, w: string, tail: seq<string>, sep: char, rest: string)
    requires sep !in w && |tail| >= 1
    requires rest == if |w| + 1 <= |s| then s[|w| + 1..] else ""
    requires HasPrefix(rest, Join(tail, sep) + [sep]) ==>
      |Split(rest, sep)| > |tail| && Split(rest, sep)[..|tail|] == tail
    requires HasPrefix(s, w + [sep] + Join(tail, sep) + [sep])
    ensures |Split(s, sep)| > |tail| + 1 && Split(s, sep)[..|tail| + 1] == [w] + tail
  {
    var joined := Join(tail, sep);
    assert w + [sep] + joined + [sep] == (w + [sep]) + (joined + [sep]);
    PrefixParts(s, w + [sep], joined + [sep]);
    SplitLeadingField(s, w, sep);
    ConsFields(Split(s, sep), w, Split(rest, sep), tail);
  }

  /** Fields w, then fields starting with `tail`, start with w and `tail`. */
  lemma ConsFields(parts: seq<string>, w: string, later: seq<string>, tail: seq<string>)
    requires parts == [w] + later && |later| > |tail| && later[..|tail|] == tail
    ensures |parts| > |tail| + 1 && parts[..|tail| + 1] == [w] + tail
  {
    assert parts[..|tail| + 1] == [w] + later[..|tail|];
  }

  /** The converse step: a split that starts with w and the tail's fields
      belongs to a string starting with their join and a separator. */
  lemma PrefixFromLeadingFields(s: string, w: string, tail: seq<string>, sep: char, rest: string)
    requires sep !in w && |tail| >= 1
    requires rest == if |w| + 1 <= |s| then s[|w| + 1..] else ""
    requires |Split(rest, sep)| > |tail| && Split(rest, sep)[..|tail|] == tail ==>
      HasPrefix(rest, Join(tail, sep) + [sep])
    requires |Split(s, sep)| > |tail| + 1 && Split(s, sep)[..|tail| + 1] == [w] + tail
    ensures HasPrefix(s, w + [sep] + Join(tail, sep) + [sep])
  {
    var parts := Split(s, sep);
    var joined := Join(tail, sep);
    assert parts[0] == parts[..|tail| + 1][0] == w;
    SplitLeadingField(s, w, sep);
    ConsPrefix(w, Split(rest, sep), |tail|);
    assert [w] + Split(rest, sep)[..|tail|] == [w] + tail;
    assert Split(rest, sep)[..|tail|] == ([w] + Split(rest, sep)[..|tail|])[1..];
    PrefixJoin(s, w + [sep], joined + [sep]);
    assert w + [sep] + joined + [sep] == (w + [sep]) + (joined + [sep]);
  }

  /** A prefix a + b is a prefix a followed, after it, by a prefix b. */
  lemma PrefixParts(s: string, a: string, b: string)
    requires HasPrefix(s, a + b)
    ensures HasPrefix(s, a) && HasPrefix(s[|a|..], b)
  {
    assert s[..|a|] == (a + b)[..|a|] == a;
    assert s[|a|..][..|b|] == (a + b)[|a|..] == b;
  }

  lemma PrefixJoin(s: string, a: string, b: string)
    requires HasPrefix(s, a) && HasPrefix(s[|a|..], b)
    ensures HasPrefix(s, a + b)
  {
    assert s[..|a| + |b|] == s[..|a|] + s[|a|..][..|b|];
  }

  lemma ConsPrefix<T>(x: T, xs: seq<T>, n: nat)
    requires n <= |xs|
    ensures ([x] + xs)[..n + 1] == [x] + xs[..n]
  {
  }

  /** Split and Join determine each other for separator-free fields. */
  lemma SplitIsFields(s: string, ws: seq<string>, sep: char)
    requires |ws| >= 1
    requires forall i :: 0 <= i < |ws| ==> sep !in ws[i]
    ensures Split(s, sep) == ws <==> s == Join(ws, sep)
  {
    JoinSplit(s, sep);
    if s == Join(ws, sep) {
      SplitJoin(ws, sep);
    }
  }

  /** A string's last field is the separator-free word `w` exactly when the
      string is `w` or ends with a separator followed by `w`. */
  lemma {:induction false} SplitLastField(s: string, w: string, sep: char)
    requires sep !in w
    ensures var parts := Split(s, sep);
      parts[|parts| - 1] == w <==> s == w || HasSuffix(s, [sep] + w)
    decreases |s|
  {
    var k := FirstSep(s, sep);
    SplitAtFirst(s, sep);
    if k == |s| && |w| + 1 <= |s| {
      assert s[|s| - |w| - 1..][0] == s[|s| - |w| - 1] != sep;
    } else if k < |s| {
      var rest := s[k + 1..];
      SplitLastField(rest, w, sep);
      LastFieldAfterSep(s, k, w, sep);
    }
  }

  /** Past a separator at `k`, "is `w` or ends with a separator and `w`"
      holds of the whole string exactly when it holds of what follows. */
  lemma LastFieldAfterSep(s: string, k: nat, w: string, sep: char)
    requires k < |s| && s[k] == sep && sep !in w
    ensures (s == w || HasSuffix(s, [sep] + w)) <==> (s[k + 1..] == w || HasSuffix(s[k + 1..], [sep] + w))
  {
    var rest := s[k + 1..];
    var suffix := [sep] + w;
    assert s != w by {
      assert s[k] == sep;
    }
    if |rest| > |w| {
      assert s[|s| - |suffix|..] == rest[|rest| - |suffix|..];
    } else if |rest| == |w| {
      assert s[|s| - |suffix|..] == [sep] + rest;
    } else if |suffix| <= |s| {
      var j := k - (|s| - |suffix|);
      assert s[|s| - |suffix|..][j] == s[k] == sep;
      assert suffix[j] == w[j - 1] != sep;
    }
  }

  // ---------------------------------------------------------------------
  // strings.TrimSpace (unicode.IsSpace)
  // ---------------------------------------------------------------------

  /** unicode.IsSpace: the ASCII white space plus U+0085, U+00A0 and the
      Unicode space separators. */
  predicate IsSpace(c: char)
  {
    c in SpaceChars || '\U{2000}' <= c <= '\U{200A}'
  }

  const SpaceChars: set<char> := {
    ' ', '\t', '\n', '\r', '\U{000B}', '\U{000C}', '\U{0085}', '\U{00A0}',
    '\U{1680}', '\U{2028}', '\U{2029}', '\U{202F}', '\U{205F}', '\U{3000}'
  }

  /** Neither end of `s` is white space. */
  predicate IsTrimmed(s: string)
  {
    |s| == 0 || (!IsSpace(s[0]) && !IsSpace(s[|s| - 1]))
  }

  /** The first index at or after `i` that is not white space (or |s|). */
  function SkipSpace(s: string, i: nat): (r: nat)
    requires i <= |s|
    ensures i <= r <= |s|
    ensures forall k :: i <= k < r ==> IsSpace(s[k])
    ensures r < |s| ==> !IsSpace(s[r])
    decreases |s| - i
  {
    if i < |s| && IsSpace(s[i]) then SkipSpace(s, i + 1) else i
  }

  /** The end of the last non-space character in s[lo..j] (or lo). */
  function SkipSpaceBack(s: string, lo: nat, j: nat): (r: nat)
    requires lo <= j <= |s|
    ensures lo <= r <= j
    ensures forall k :: r <= k < j ==> IsSpace(s[k])
    ensures r > lo ==> !IsSpace(s[r - 1])
    decreases j
  {
    if j > lo && IsSpace(s[j - 1]) then SkipSpaceBack(s, lo, j - 1) else j
  }

  /** The number of white-space characters TrimSpace removes at the front. */
  function LeadingSpace(s: string): nat
    ensures LeadingSpace(s) <= |s|
  {
    SkipSpace(s, 0)
  }

  /** strings.TrimSpace: the result is a trimmed infix of `s`, and everything
      cut away on either side is white space. */
  function TrimSpace(s: string): (r: string)
    ensures IsTrimmed(r)
    ensures LeadingSpace(s) + |r| <= |s|
    ensures r == s[LeadingSpace(s)..LeadingSpace(s) + |r|]
    ensures forall k :: 0 <= k < LeadingSpace(s) ==> IsSpace(s[k])
    ensures forall k :: LeadingSpace(s) + |r| <= k < |s| ==> IsSpace(s[k])
    ensures |r| == 0 <==> forall k :: 0 <= k < |s| ==> IsSpace(s[k])
  {
    var lo := SkipSpace(s, 0);
    var hi := SkipSpaceBack(s, lo, |s|);
    assert hi > lo ==> !IsSpace(s[lo]);
    s[lo..hi]
  }

  /** Trimming a trimmed string changes nothing. */
  lemma TrimSpaceTrimmed(s: string)
    requires IsTrimmed(s)
    ensures TrimSpace(s) == s
  {
    assert |s| > 0 ==> SkipSpace(s, 0) == 0;
  }

  // ---------------------------------------------------------------------
  // Decimal digits (fmt "%d", strconv.ParseUint, strconv.Atoi)
  // ---------------------------------------------------------------------

  predicate IsDigit(c: char)
  {
    '0' <= c <= '9'
  }

  predicate AllDigits(s: string)
  {
    forall i :: 0 <= i < |s| ==> IsDigit(s[i])
  }

  function DigitValue(c: char): nat
    requires IsDigit(c)
  {
    (c as int) - ('0' as int)
  }

  function DigitChar(d: nat): (c: char)
    requires d < 10
    ensures IsDigit(c) && DigitValue(c) == d
  {
    (('0' as int) + d) as char
  }

  /** The number a string of decimal digits denotes (leading zeros allowed). */
  function DecimalValue(s: string): nat
    requires AllDigits(s)
    decreases |s|
  {
    if |s| == 0 then 0 else DecimalValue(s[..|s| - 1]) * 10 + DigitValue(s[|s| - 1])
  }

  /** fmt.Sprintf("%d", n) for a non-negative n: the shortest decimal
      rendering, which denotes `n` again. */
  function Decimal(n: nat): (s: string)
    ensures |s| >= 1 && AllDigits(s)
    ensures |s| > 1 ==> s[0] != '0'
    ensures DecimalValue(s) == n
    decreases n
  {
    if n < 10 then [DigitChar(n)]
    else
      var prefix := Decimal(n / 10);
      var s := prefix + [DigitChar(n % 10)];
      assert s[..|s| - 1] == prefix;
      s
  }

  /** Distinct numbers render differently. */
  lemma DecimalInjective(a: nat, b: nat)
    requires Decimal(a) == Decimal(b)
    ensures a == b
  {
  }

  function Pow2(k: nat): (r: nat)
    ensures r >= 1
  {
    if k == 0 then 1 else 2 * Pow2(k - 1)
  }

  const MaxInt64: int := 0x7FFF_FFFF_FFFF_FFFF
  const MinInt64: int := -0x8000_0000_0000_0000

  predicate InInt64(x: int)
  {
    MinInt64 <= x <= MaxInt64
  }

  /** Go's int64. */
  type Int64 = x: int | MinInt64 <= x <= MaxInt64

  const TwoTo64: int := 0x1_0000_0000_0000_0000

  /** The int64 that Go's two's-complement arithmetic yields for the exact
      result `x`. */
  function WrapInt64(x: int): (r: Int64)
    ensures InInt64(x) ==> r == x
    ensures (x - r) % TwoTo64 == 0
  {
    var m := (x - MinInt64) % TwoTo64;
    assert (x - MinInt64) == ((x - MinInt64) / TwoTo64) * TwoTo64 + m;
    m + MinInt64
  }

  /** strconv.ParseUint(s, 10, bits): one or more decimal digits (no sign,
      no underscores) whose value fits in `bits` bits. */
  function ParseUint(s: string, bits: nat): (r: Option<nat>)
    ensures r.Some? ==> |s| > 0 && AllDigits(s) && r.value == DecimalValue(s)
    ensures r.Some? ==> r.value < Pow2(bits)
    ensures r.None? ==> |s| == 0 || !AllDigits(s) || DecimalValue(s) >= Pow2(bits)
  {
    if |s| > 0 && AllDigits(s) && DecimalValue(s) < Pow2(bits) then Some(DecimalValue(s)) else None
  }

  /** Decimal rendering and ParseUint are inverse on the values that fit. */
  lemma ParseUintDecimal(n: nat, bits: nat)
    ensures ParseUint(Decimal(n), bits) == (if n < Pow2(bits) then Some(n) else None)
  {
  }

  /** The syntax strconv.Atoi accepts: an optional '+' or '-' and then one
      or more decimal digits. */
  predicate IsSignedDecimal(s: string)
  {
    if |s| > 0 && (s[0] == '+' || s[0] == '-') then |s| > 1 && AllDigits(s[1..])
    else |s| > 0 && AllDigits(s)
  }

  /** The value such a text denotes: its digits, negated after a '-'. */
  function SignedValue(s: string): int
    requires IsSignedDecimal(s)
  {
    if s[0] == '-' then -(DecimalValue(s[1..]) as int)
    else if s[0] == '+' then DecimalValue(s[1..])
    else DecimalValue(s)
  }

  /** strconv.Atoi on a 64-bit platform: an optional '+' or '-' followed by
      one or more decimal digits, with the value inside the int64 range. */
  function Atoi(s: string): (r: Option<int>)
    ensures r.Some? <==> IsSignedDecimal(s) && InInt64(SignedValue(s))
    ensures r.Some? ==> r.value == SignedValue(s) && InInt64(r.value)
  {
    var signed := |s| > 0 && (s[0] == '+' || s[0] == '-');
    var digits := if signed then s[1..] else s;
    if |digits| == 0 || !AllDigits(digits) then None
    else
      var magnitude := DecimalValue(digits);
      var v: int := if signed && s[0] == '-' then -(magnitude as int) else magnitude;
      if InInt64(v) then Some(v) else None
  }

  /** Leading zeros and a '+' sign change nothing: "007" and "+7" read as 7. */
  lemma AtoiPadding(n: nat)
    requires n <= MaxInt64
    ensures Atoi("00" + Decimal(n)) == Some(n)
    ensures Atoi("+" + Decimal(n)) == Some(n)
  {
    var d := Decimal(n);
    assert ("+" + d)[1..] == d;
    DecimalLeadingZero(d);
    DecimalLeadingZero("0" + d);
    assert "0" + ("0" + d) == "00" + d;
  }

  /** A leading zero does not change a digit string's value. */
  lemma {:induction false} DecimalLeadingZero(d: string)
    requires AllDigits(d)
    ensures AllDigits("0" + d) && DecimalValue("0" + d) == DecimalValue(d)
    decreases |d|
  {
    if |d| > 0 {
      var z := "0" + d;
      assert z[..|z| - 1] == "0" + d[..|d| - 1];
      assert z[|z| - 1] == d[|d| - 1];
      DecimalLeadingZero(d[..|d| - 1]);
    }
  }

  /** Atoi reads back what `%d` writes, for every int64 value. */
  lemma AtoiDecimal(n: nat)
    ensures Atoi(Decimal(n)) == (if n <= MaxInt64 then Some(n) else None)
    ensures n <= -MinInt64 ==> Atoi("-" + Decimal(n)) == Some(-(n as int))
  {
    var d := Decimal(n);
    assert d[0] != '+' && d[0] != '-';
    assert ("-" + d)[1..] == d;
  }

  /** Atoi rejects the empty string, a bare sign, and any string with a
      non-digit after the optional sign. */
  lemma AtoiRejectsNonNumeric(s: string, k: nat)
    requires k < |s| && !IsDigit(s[k])
    requires k == 0 ==> s[0] != '+' && s[0] != '-'
    ensures Atoi(s) == None
    ensures Atoi("") == None && Atoi("+") == None && Atoi("-") == None
  {
    var signed := |s| > 0 && (s[0] == '+' || s[0] == '-');
    var digits := if signed then s[1..] else s;
    if signed {
      assert digits[k - 1] == s[k];
    } else {
      assert digits[k] == s[k];
    }
  }
}
