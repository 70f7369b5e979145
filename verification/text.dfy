/** String operations of JavaScript's `String.prototype` that the client relies
    on: `trim`, `indexOf`, `includes`, `split`, `join`, `toLowerCase`, `slice`
    and relational comparison of strings. Strings are `seq<char>`. */
module Text {
  import opened Wrappers

  /** The code points `String.prototype.trim` removes: WhiteSpace and LineTerminator. */
  predicate IsSpace(c: char) {
    || c == ' ' || c == '\t' || c == '\n' || c == '\r' || c == '\U{000B}' || c == '\U{000C}'
    || c == '\U{00A0}' || c == '\U{1680}' || ('\U{2000}' <= c <= '\U{200A}')
    || c == '\U{2028}' || c == '\U{2029}' || c == '\U{202F}' || c == '\U{205F}'
    || c == '\U{3000}' || c == '\U{FEFF}'
  }

  /** `s.trim() === ""`. */
  predicate IsBlank(s: string) {
    forall i :: 0 <= i < |s| ==> IsSpace(s[i])
  }

  function TrimStart(s: string): (r: string)
    ensures |r| <= |s| && r == s[|s| - |r|..]
    ensures IsBlank(s[..|s| - |r|])
    ensures r == [] || !IsSpace(r[0])
  {
    if s != [] && IsSpace(s[0]) then
      var r := TrimStart(s[1..]);
      assert s[..|s| - |r|] == [s[0]] + s[1..][..|s| - 1 - |r|];
      r
    else s
  }

  function TrimEnd(s: string): (r: string)
    ensures |r| <= |s| && r == s[..|r|]
    ensures IsBlank(s[|r|..])
    ensures r == [] || !IsSpace(r[|r| - 1])
  {
    if s != [] && IsSpace(s[|s| - 1]) then
      var r := TrimEnd(s[..|s| - 1]);
      assert s[|r|..] == s[..|s| - 1][|r|..] + [s[|s| - 1]];
      r
    else s
  }

  /** `s.trim()`: removes white space on both sides. */
  function Trim(s: string): (r: string)
    ensures |r| <= |s|
    ensures r == [] || (!IsSpace(r[0]) && !IsSpace(r[|r| - 1]))
    ensures exists i, j :: 0 <= i <= j <= |s| && r == s[i..j] && IsBlank(s[..i]) && IsBlank(s[j..])
  {
    var t := TrimStart(s);
    var r := TrimEnd(t);
    InfixOf(s, t, r);
    r
  }

  /** A prefix `r` of a suffix `t` of `s`, with white space cut on both sides. */
  lemma InfixOf(s: string, t: string, r: string)
    requires |t| <= |s| && t == s[|s| - |t|..] && IsBlank(s[..|s| - |t|])
    requires |r| <= |t| && r == t[..|r|] && IsBlank(t[|r|..])
    ensures exists i, j :: 0 <= i <= j <= |s| && r == s[i..j] && IsBlank(s[..i]) && IsBlank(s[j..])
  {
    var i := |s| - |t|;
    assert t[..|r|] == s[i..i + |r|];
    assert t[|r|..] == s[i + |r|..];
    assert r == s[i..i + |r|] && IsBlank(s[..i]) && IsBlank(s[i + |r|..]);
  }

  /** A string trims to empty exactly when it consists of white space only. */
  lemma TrimEmptyIffBlank(s: string)
    ensures Trim(s) == [] <==> IsBlank(s)
  {
    if Trim(s) == [] {
      assert s[..|s|] == s;
    }
  }

  /** `pat` occurs in `s` starting at index `i`. */
  predicate OccursAt(s: string, pat: string, i: int) {
    0 <= i && i + |pat| <= |s| && s[i..i + |pat|] == pat
  }

  /** `s.indexOf(pat, from)`, `None` standing for -1: the first occurrence at or after `from`. */
  function IndexOf(s: string, pat: string, from: nat): (r: Option<nat>)
    ensures r.Some? ==> from <= r.value && r.value + |pat| <= |s|
    decreases |s| - from
  {
    if from + |pat| > |s| then None
    else if s[from..from + |pat|] == pat then Some(from)
    else IndexOf(s, pat, from + 1)
  }

  /** `IndexOf` finds an occurrence, the FIRST one, and reports none only when there is none. */
  lemma {:induction false} IndexOfFirst(s: string, pat: string, from: nat)
    ensures var r := IndexOf(s, pat, from);
      && (r.Some? ==> OccursAt(s, pat, r.value))
      && (r.Some? ==> forall j :: from <= j < r.value ==> !OccursAt(s, pat, j))
      && (r.None? ==> forall j :: from <= j ==> !OccursAt(s, pat, j))
    decreases |s| - from
  {
    if from + |pat| <= |s| && s[from..from + |pat|] != pat {
      IndexOfFirst(s, pat, from + 1);
    }
  }

  /** `IndexOf` from the start reports `i` when `pat` occurs at `i` and at no earlier index. */
  lemma {:induction false} IndexOfIs(s: string, pat: string, from: nat, i: nat)
    requires from <= i && OccursAt(s, pat, i)
    requires forall j :: from <= j < i ==> !OccursAt(s, pat, j)
    ensures IndexOf(s, pat, from) == Some(i)
    decreases i - from
  {
    if from < i {
      assert !OccursAt(s, pat, from);
      IndexOfIs(s, pat, from + 1, i);
    }
  }

  /** `s.startsWith(p)`. */
  predicate StartsWith(s: string, p: string) {
    |p| <= |s| && s[..|p|] == p
  }

  /** `s.includes(pat)`. */
  predicate Contains(s: string, pat: string) {
    IndexOf(s, pat, 0).Some?
  }

  lemma ContainsIff(s: string, pat: string)
    ensures Contains(s, pat) <==> exists i :: OccursAt(s, pat, i)
  {
    IndexOfFirst(s, pat, 0);
  }

  /** The first occurrence found in `a` is still the first one in `a + b`. */
  lemma IndexOfExtend(a: string, b: string, pat: string, from: nat)
    requires IndexOf(a, pat, from).Some?
    ensures IndexOf(a + b, pat, from) == IndexOf(a, pat, from)
    decreases |a| - from
  {
    assert (a + b)[from..from + |pat|] == a[from..from + |pat|];
    if a[from..from + |pat|] != pat {
      IndexOfExtend(a, b, pat, from + 1);
    }
  }

  /** Nothing before the first occurrence of `pat` contains `pat`. */
  lemma PrefixBeforeFirst(s: string, pat: string, i: nat)
    requires |pat| > 0 && IndexOf(s, pat, 0) == Some(i)
    ensures !Contains(s[..i], pat)
  {
    IndexOfFirst(s, pat, 0);
    var t := s[..i];
    forall j | 0 <= j && j + |pat| <= |t|
      ensures !OccursAt(t, pat, j)
    {
      assert t[j..j + |pat|] == s[j..j + |pat|];
      assert !OccursAt(s, pat, j);
    }
    IndexOfFirst(t, pat, 0);
  }

  /** `s.split(sep)` for a non-empty separator: the pieces between the
      left-to-right, non-overlapping occurrences of `sep`. */
  function Split(s: string, sep: string): (r: seq<string>)
    requires |sep| > 0
    ensures |r| >= 1
    decreases |s|
  {
    var f := IndexOf(s, sep, 0);
    if f.None? then [s]
    else [s[..f.value]] + Split(s[f.value + |sep|..], sep)
  }

  /** No piece produced by `Split` contains the separator. */
  lemma {:induction false} SplitPiecesFree(s: string, sep: string)
    requires |sep| > 0
    ensures forall k :: 0 <= k < |Split(s, sep)| ==> !Contains(Split(s, sep)[k], sep)
    decreases |s|
  {
    var f := IndexOf(s, sep, 0);
    if f.Some? {
      PrefixBeforeFirst(s, sep, f.value);
      SplitPiecesFree(s[f.value + |sep|..], sep);
    }
  }

  /** `parts.join(sep)`. */
  function Join(parts: seq<string>, sep: string): string {
    if parts == [] then ""
    else if |parts| == 1 then parts[0]
    else parts[0] + sep + Join(parts[1..], sep)
  }

  /** Concatenation of all pieces, in order. */
  function Concat(parts: seq<string>): string {
    if parts == [] then "" else parts[0] + Concat(parts[1..])
  }

  /** Joining a piece in front of at least one other piece puts the separator between them. */
  lemma JoinCons(x: string, p: seq<string>, sep: string)
    requires |p| >= 1
    ensures Join([x] + p, sep) == x + sep + Join(p, sep)
  {
    assert ([x] + p)[1..] == p;
  }

  /** Cutting a sequence in three and concatenating the parts gives it back. */
  lemma Recompose<T>(s: seq<T>, i: nat, j: nat)
    requires i <= j <= |s|
    ensures s[..i] + s[i..j] + s[j..] == s
  {
    assert s[i..] == s[i..j] + s[j..];
    assert s == s[..i] + s[i..];
  }

  /** Splitting and joining again gives back the original string. */
  lemma {:induction false} JoinSplit(s: string, sep: string)
    requires |sep| > 0
    ensures Join(Split(s, sep), sep) == s
    decreases |s|
  {
    var f := IndexOf(s, sep, 0);
    if f.None? {
      assert Split(s, sep) == [s];
    } else {
      var i := f.value;
      IndexOfFirst(s, sep, 0);
      var rest := s[i + |sep|..];
      var q := Split(rest, sep);
      assert Split(s, sep) == [s[..i]] + q;
      JoinSplit(rest, sep);
      JoinCons(s[..i], q, sep);
      assert s[i..i + |sep|] == sep;
      Recompose(s, i, i + |sep|);
    }
  }

  /** Splitting a concatenation: the pieces that end inside `a` are the same,
      and the last piece of `a` is continued by `b`. This is what makes a
      carry-over buffer independent of where the input was cut. */
  lemma {:induction false} SplitAppend(a: string, b: string, sep: string)
    requires |sep| > 0
    ensures var p := Split(a, sep);
      Split(a + b, sep) == p[..|p| - 1] + Split(p[|p| - 1] + b, sep)
    decreases |a|
  {
    var f := IndexOf(a, sep, 0);
    if f.None? {
      assert Split(a, sep) == [a];
      assert [a][..0] == [];
    } else {
      var i := f.value;
      var rest := a[i + |sep|..];
      SplitAppend(rest, b, sep);
      SplitStep(a, sep, i);
      SplitStepAppend(a, b, sep, i);
      var q := Split(rest, sep);
      ConsCut(a[..i], q, Split(q[|q| - 1] + b, sep));
    }
  }

  /** `SplitAppend` seen from the last piece: the pieces of `a + b` but the last
      are the finished pieces of `a` and then of the continued last piece. */
  lemma CutAppend(a: string, b: string, sep: string)
    requires |sep| > 0
    ensures var q := Split(a, sep);
      var t := Split(q[|q| - 1] + b, sep);
      var p := Split(a + b, sep);
      p[..|p| - 1] == q[..|q| - 1] + t[..|t| - 1] && p[|p| - 1] == t[|t| - 1]
  {
    var q := Split(a, sep);
    SplitAppend(a, b, sep);
    AppendLast(q[..|q| - 1], Split(q[|q| - 1] + b, sep));
  }

  /** One step of `Split`: the piece before the first separator, then the split of the rest. */
  lemma SplitStep(s: string, sep: string, i: nat)
    requires |sep| > 0 && IndexOf(s, sep, 0) == Some(i)
    ensures Split(s, sep) == [s[..i]] + Split(s[i + |sep|..], sep)
  {
    var f := IndexOf(s, sep, 0);
    assert f == Some(i);
    assert Split(s, sep) == [s[..f.value]] + Split(s[f.value + |sep|..], sep);
  }

  /** The first step of splitting `a + b` when the first separator lies inside `a`. */
  lemma SplitStepAppend(a: string, b: string, sep: string, i: nat)
    requires |sep| > 0 && IndexOf(a, sep, 0) == Some(i)
    ensures Split(a + b, sep) == [a[..i]] + Split(a[i + |sep|..] + b, sep)
  {
    IndexOfExtend(a, b, sep, 0);
    AppendSlices(a, b, i, i + |sep|);
    SplitStep(a + b, sep, i);
  }

  /** With a one-character separator and no separator inside `x`, the first
      separator of `x + sep + y` is the one right after `x`. */
  lemma FirstSepAt(x: string, sep: string, y: string)
    requires |sep| == 1 && !Contains(x, sep)
    ensures IndexOf(x + sep + y, sep, 0) == Some(|x|)
  {
    var s := x + sep + y;
    assert s[|x|..|x| + 1] == sep;
    ContainsIff(x, sep);
    forall j | 0 <= j < |x| ensures !OccursAt(s, sep, j) {
      assert x[j..j + 1] == s[j..j + 1];
      assert !OccursAt(x, sep, j);
    }
    IndexOfIs(s, sep, 0, |x|);
  }

  /** Joining pieces free of a one-character separator and splitting again gives the pieces back. */
  lemma {:induction false} SplitJoin(parts: seq<string>, sep: string)
    requires |sep| == 1 && |parts| >= 1
    requires forall k :: 0 <= k < |parts| ==> !Contains(parts[k], sep)
    ensures Split(Join(parts, sep), sep) == parts
    decreases |parts|
  {
    if |parts| == 1 {
      assert Join(parts, sep) == parts[0];
    } else {
      var x := parts[0];
      var y := Join(parts[1..], sep);
      var s := x + sep + y;
      assert Join(parts, sep) == s;
      FirstSepAt(x, sep, y);
      SplitStep(s, sep, |x|);
      assert s[..|x|] == x;
      assert s[|x| + 1..] == y;
      SplitJoin(parts[1..], sep);
      assert parts == [x] + parts[1..];
    }
  }

  /** No occurrence of `sep` starts inside `x` once `x` is followed by `sep`:
      `x` and all but the last character of `sep` hold no `sep`. */
  predicate SepFree(x: string, sep: string)
    requires |sep| >= 1
  {
    !Contains(x + sep[..|sep| - 1], sep)
  }

  /** For a separator-free `x`, the first separator of `x + sep + y` is the
      one right after `x`, whatever the separator's length. */
  lemma FirstSepAfter(x: string, sep: string, y: string)
    requires |sep| >= 1 && SepFree(x, sep)
    ensures IndexOf(x + sep + y, sep, 0) == Some(|x|)
  {
    var s := x + sep + y;
    var t := x + sep[..|sep| - 1];
    assert s[|x|..|x| + |sep|] == sep;
    assert forall i :: 0 <= i < |t| ==> s[i] == t[i];
    ContainsIff(t, sep);
    forall j | 0 <= j < |x| ensures !OccursAt(s, sep, j) {
      assert s[j..j + |sep|] == t[j..j + |sep|];
      assert !OccursAt(t, sep, j);
    }
    IndexOfIs(s, sep, 0, |x|);
  }

  /** A separator-free piece holds no separator. */
  lemma SepFreeNotContains(x: string, sep: string)
    requires |sep| >= 1 && SepFree(x, sep)
    ensures !Contains(x, sep)
  {
    if Contains(x, sep) {
      IndexOfExtend(x, sep[..|sep| - 1], sep, 0);
    }
  }

  /** Joining separator-free pieces and splitting again gives the pieces
      back, for a separator of any length. */
  lemma {:induction false} SplitJoinSepFree(parts: seq<string>, sep: string)
    requires |sep| >= 1 && |parts| >= 1
    requires forall k :: 0 <= k < |parts| ==> SepFree(parts[k], sep)
    ensures Split(Join(parts, sep), sep) == parts
    decreases |parts|
  {
    if |parts| == 1 {
      assert Join(parts, sep) == parts[0];
      SepFreeNotContains(parts[0], sep);
    } else {
      var x := parts[0];
      var y := Join(parts[1..], sep);
      var s := x + sep + y;
      assert Join(parts, sep) == s;
      FirstSepAfter(x, sep, y);
      SplitStep(s, sep, |x|);
      assert s[..|x|] == x;
      assert s[|x| + |sep|..] == y;
      SplitJoinSepFree(parts[1..], sep);
      assert parts == [x] + parts[1..];
    }
  }

  /** The last element of `u + t` for a non-empty `t` is that of `t`. */
  lemma AppendLast<T>(u: seq<T>, t: seq<T>)
    requires |t| >= 1
    ensures var p := u + t; p[..|p| - 1] == u + t[..|t| - 1] && p[|p| - 1] == t[|t| - 1]
  {
  }

  lemma AppendAssoc<T>(a: seq<T>, b: seq<T>, c: seq<T>)
    ensures (a + b) + c == a + (b + c)
  {
  }

  /** Slicing `a + b` inside `a`: the prefix comes from `a`, the suffix is continued by `b`. */
  lemma AppendSlices<T>(a: seq<T>, b: seq<T>, i: nat, j: nat)
    requires i <= j <= |a|
    ensures (a + b)[..i] == a[..i]
    ensures (a + b)[j..] == a[j..] + b
  {
  }

  /** Putting an element in front of a non-empty sequence keeps its last
      element and commutes with cutting that element off. */
  lemma ConsCut<T>(x: T, q: seq<T>, t: seq<T>)
    requires |q| >= 1
    ensures var p := [x] + q; [x] + (q[..|q| - 1] + t) == p[..|p| - 1] + t && p[|p| - 1] == q[|q| - 1]
  {
    var p := [x] + q;
    assert p[..|p| - 1] == [x] + q[..|q| - 1];
  }

  /** Joining a prefix of the pieces gives a prefix of the joined string. */
  lemma {:induction false} JoinPrefix(parts: seq<string>, k: nat, sep: string)
    requires 1 <= k <= |parts|
    ensures var j := Join(parts[..k], sep); |j| <= |Join(parts, sep)| && j == Join(parts, sep)[..|j|]
  {
    if k == 1 {
      if |parts| > 1 {
        assert Join(parts, sep) == parts[0] + (sep + Join(parts[1..], sep));
      }
    } else {
      JoinPrefix(parts[1..], k - 1, sep);
      assert parts[1..][..k - 1] == parts[..k][1..];
    }
  }

  /** ASCII case mapping of `toLowerCase`. */
  function LowerChar(c: char): char {
    if 'A' <= c <= 'Z' then (c as int + 32) as char else c
  }

  /** `s.toLowerCase()`, restricted to the ASCII letters. */
  function ToLower(s: string): (r: string)
    ensures |r| == |s|
    ensures forall i :: 0 <= i < |s| ==> r[i] == LowerChar(s[i])
  {
    if s == [] then [] else [LowerChar(s[0])] + ToLower(s[1..])
  }

  /** Case-insensitive substring test: `s.toLowerCase().includes(pat.toLowerCase())`. */
  predicate ContainsIgnoreCase(s: string, pat: string) {
    Contains(ToLower(s), ToLower(pat))
  }

  /** Decimal rendering of a natural number, as template literals print it. */
  function NatToString(n: nat): (r: string)
    ensures |r| >= 1
    ensures forall i :: 0 <= i < |r| ==> '0' <= r[i] <= '9'
  {
    if n < 10 then [Digit(n)] else NatToString(n / 10) + [Digit(n % 10)]
  }

  function Digit(d: nat): (c: char)
    requires d < 10
    ensures '0' <= c <= '9'
  {
    ['0', '1', '2', '3', '4', '5', '6', '7', '8', '9'][d]
  }

  /** The value of a string of decimal digits, most significant first. */
  function DigitsValue(s: string): nat
    decreases |s|
  {
    if s == [] then 0
    else
      var c := s[|s| - 1];
      DigitsValue(s[..|s| - 1]) * 10 + (if '0' <= c <= '9' then (c as int) - ('0' as int) else 0)
  }

  /** Reading a rendered number back gives the number, so different numbers
      render differently. */
  lemma {:induction false} NatToStringRoundTrip(n: nat)
    ensures DigitsValue(NatToString(n)) == n
    decreases n
  {
    var s := NatToString(n);
    DigitValue(n % 10);
    if n >= 10 {
      NatToStringRoundTrip(n / 10);
      assert s[..|s| - 1] == NatToString(n / 10);
    } else {
      assert s[..|s| - 1] == [];
    }
  }

  lemma DigitValue(d: nat)
    requires d < 10
    ensures (Digit(d) as int) - ('0' as int) == d
  {
  }

  lemma NatToStringInjective(a: nat, b: nat)
    ensures NatToString(a) == NatToString(b) ==> a == b
  {
    NatToStringRoundTrip(a);
    NatToStringRoundTrip(b);
  }

  /** Relational comparison of strings (`a <= b`): lexicographic by character code. */
  predicate LexLe(a: string, b: string)
    decreases |a|
  {
    if a == [] then true
    else if b == [] then false
    else if a[0] != b[0] then a[0] < b[0]
    else LexLe(a[1..], b[1..])
  }

  /** A proper extension of a string compares greater than it. */
  lemma {:induction false} ExtensionNotLe(a: string, ext: string)
    requires ext != []
    ensures !LexLe(a + ext, a)
    decreases |a|
  {
    if a != [] {
      assert (a + ext)[1..] == a[1..] + ext;
      ExtensionNotLe(a[1..], ext);
    }
  }

  /** Every string compares at least as large as itself. */
  lemma {:induction false} LexLeRefl(a: string)
    ensures LexLe(a, a)
    decreases |a|
  {
    if a != [] { LexLeRefl(a[1..]); }
  }

  /** `Array.prototype.slice(start, end)` with JavaScript's clamping of negative
      and out-of-range indices. */
  function JsSlice<T>(s: seq<T>, start: int, end: int): (r: seq<T>)
    ensures ClampIndex(start, |s|) + |r| <= |s|
    ensures ClampIndex(end, |s|) <= ClampIndex(start, |s|) <==> r == []
    ensures r != [] ==> ClampIndex(start, |s|) + |r| == ClampIndex(end, |s|)
    ensures forall k :: 0 <= k < |r| ==> r[k] == s[ClampIndex(start, |s|) + k]
  {
    var lo := ClampIndex(start, |s|);
    var hi := ClampIndex(end, |s|);
    if lo < hi then s[lo..hi] else []
  }

  /** Index normalisation of `slice`: negative counts from the end, then clamped to `[0, len]`. */
  function ClampIndex(i: int, len: nat): (r: nat)
    ensures r <= len
    ensures 0 <= i <= len ==> r == i
  {
    if i < 0 then (if len + i < 0 then 0 else len + i)
    else if i > len then len
    else i
  }

  /** In range, `slice` is plain subsequence selection. */
  lemma JsSliceInRange<T>(s: seq<T>, start: int, end: int)
    requires 0 <= start <= end <= |s|
    ensures JsSlice(s, start, end) == s[start..end]
  {
  }

  /** A negative start counts from the end: `slice(-k, len)` is the last `k`
      elements, and a start before the beginning means the beginning. */
  lemma JsSliceFromEnd<T>(s: seq<T>, k: int)
    ensures 0 < k <= |s| ==> JsSlice(s, -k, |s|) == s[|s| - k..]
    ensures k > |s| ==> JsSlice(s, -k, |s|) == s
  {
  }

  /** An end past the length stops at the length. */
  lemma JsSliceEndClamped<T>(s: seq<T>, start: nat, end: int)
    requires start <= |s| <= end
    ensures JsSlice(s, start, end) == s[start..]
  {
  }

  /** Adjacent slices concatenate to the slice that spans them, whatever the
      indices are, as long as the middle index lies between the outer ones
      after normalisation. */
  lemma JsSliceAdjacent<T>(s: seq<T>, a: int, b: int, c: int)
    requires ClampIndex(a, |s|) <= ClampIndex(b, |s|) <= ClampIndex(c, |s|)
    ensures JsSlice(s, a, b) + JsSlice(s, b, c) == JsSlice(s, a, c)
  {
    var lo, mid, hi := ClampIndex(a, |s|), ClampIndex(b, |s|), ClampIndex(c, |s|);
    if lo < mid < hi {
      assert s[lo..mid] + s[mid..hi] == s[lo..hi];
    }
  }

  /** Keeps the pieces that are not blank, in order (`.filter(x => x.trim())`). */
  function NonBlank(parts: seq<string>): (r: seq<string>)
    ensures |r| <= |parts|
    ensures forall k :: 0 <= k < |r| ==> !IsBlank(r[k]) && r[k] in parts
    ensures forall k :: 0 <= k < |parts| && !IsBlank(parts[k]) ==> parts[k] in r
  {
    if parts == [] then []
    else if IsBlank(parts[0]) then NonBlank(parts[1..])
    else [parts[0]] + NonBlank(parts[1..])
  }

  /** The filter works piece by piece: it distributes over concatenation. */
  lemma {:induction false} NonBlankAppend(a: seq<string>, b: seq<string>)
    ensures NonBlank(a + b) == NonBlank(a) + NonBlank(b)
    decreases |a|
  {
    if a == [] {
      assert a + b == b;
    } else {
      assert (a + b)[0] == a[0];
      assert (a + b)[1..] == a[1..] + b;
      NonBlankAppend(a[1..], b);
      var h := if IsBlank(a[0]) then [] else [a[0]];
      assert NonBlank(a + b) == h + NonBlank(a[1..] + b);
      assert h + (NonBlank(a[1..]) + NonBlank(b)) == (h + NonBlank(a[1..])) + NonBlank(b);
    }
  }

  /** A single piece is kept exactly when it is not blank. */
  lemma NonBlankOne(x: string)
    ensures NonBlank([x]) == if IsBlank(x) then [] else [x]
  {
    assert [x][1..] == [];
  }

}
