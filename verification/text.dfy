/** The JavaScript string operations the application relies on, modelled on
    sequences of UTF-16 code units (one `char` per code unit, which is how
    `length` and `slice` count): `trim`, `slice(0, n)`, number-to-string,
    `split('/')`, the regular expressions `/:.*$/`, `/Input (\d+)/` and
    `/^v(\d+)$/` with `parseInt`, and the page helpers `truncate` and
    `shortModelName`. */
module Text {
  import opened Wrappers

  // ---------------------------------------------------------------------------
  // White space and trim

  /** ECMAScript LineTerminator code points. */
  predicate IsLineTerminator(c: char) {
    c == '\n' || c == '\r' || c == '\U{2028}' || c == '\U{2029}'
  }

  /** ECMAScript WhiteSpace or LineTerminator: what `trim` removes. */
  predicate IsJsSpace(c: char) {
    || IsLineTerminator(c)
    || c == '\t' || c == '\U{000B}' || c == '\U{000C}' || c == ' '
    || c == '\U{00A0}' || c == '\U{FEFF}' || c == '\U{1680}'
    || ('\U{2000}' <= c <= '\U{200A}')
    || c == '\U{202F}' || c == '\U{205F}' || c == '\U{3000}'
  }

  predicate AllSpace(s: string) {
    forall i :: 0 <= i < |s| ==> IsJsSpace(s[i])
  }

  /** Length of the longest all-space prefix. */
  function LeadingSpaces(s: string): (k: nat)
    ensures k <= |s|
    ensures forall i :: 0 <= i < k ==> IsJsSpace(s[i])
    ensures k < |s| ==> !IsJsSpace(s[k])
  {
    if |s| > 0 && IsJsSpace(s[0]) then 1 + LeadingSpaces(s[1..]) else 0
  }

  /** Length of the longest all-space suffix. */
  function TrailingSpaces(s: string): (k: nat)
    ensures k <= |s|
    ensures forall i :: |s| - k <= i < |s| ==> IsJsSpace(s[i])
    ensures k < |s| ==> !IsJsSpace(s[|s| - 1 - k])
  {
    if |s| > 0 && IsJsSpace(s[|s| - 1]) then 1 + TrailingSpaces(s[..|s| - 1]) else 0
  }

  /** `String.prototype.trim`. */
  function Trim(s: string): (r: string)
    ensures |r| <= |s|
    ensures r == [] || (!IsJsSpace(r[0]) && !IsJsSpace(r[|r| - 1]))
  {
    var t := s[LeadingSpaces(s)..];
    t[..|t| - TrailingSpaces(t)]
  }

  /** `s.trim().length > 0` is false. */
  predicate IsBlank(s: string) {
    Trim(s) == []
  }

  /** Trim removes exactly a white-space prefix and a white-space suffix: the
      result is the slice `s[a..b]` with only white space outside it. */
  lemma TrimSlice(s: string) returns (a: nat, b: nat)
    ensures a <= b <= |s|
    ensures Trim(s) == s[a..b]
    ensures forall i :: 0 <= i < a ==> IsJsSpace(s[i])
    ensures forall i :: b <= i < |s| ==> IsJsSpace(s[i])
  {
    a := LeadingSpaces(s);
    var t := s[a..];
    b := a + |t| - TrailingSpaces(t);
    assert t[..|t| - TrailingSpaces(t)] == s[a..b];
    forall i | b <= i < |s|
      ensures IsJsSpace(s[i])
    {
      assert s[i] == t[i - a];
    }
  }

  /** A string is blank exactly when every code unit is white space. */
  lemma BlankIffAllSpace(s: string)
    ensures IsBlank(s) <==> AllSpace(s)
  {
    var a, b := TrimSlice(s);
    if IsBlank(s) {
      assert a == b;
      forall i | 0 <= i < |s|
        ensures IsJsSpace(s[i])
      {
        if i >= a {
          assert b <= i;
        }
      }
    } else {
      assert !IsJsSpace(Trim(s)[0]);
      assert Trim(s)[0] == s[a];
    }
  }

  /** Trim is idempotent. */
  lemma TrimIdempotent(s: string)
    ensures Trim(Trim(s)) == Trim(s)
  {
    var r := Trim(s);
    if r != [] {
      assert LeadingSpaces(r) == 0;
      assert TrailingSpaces(r) == 0;
    }
  }

  // ---------------------------------------------------------------------------
  // Slicing

  /** `s.slice(0, n)` for a non-negative `n`. */
  function Prefix(s: string, n: nat): (r: string)
    ensures r <= s
    ensures |r| == if n <= |s| then n else |s|
  {
    if n <= |s| then s[..n] else s
  }

  // ---------------------------------------------------------------------------
  // Decimal numerals: `${n}` and `parseInt(digits, 10)`

  predicate IsDigit(c: char) {
    '0' <= c <= '9'
  }

  predicate AllDigits(s: string) {
    forall i :: 0 <= i < |s| ==> IsDigit(s[i])
  }

  function DigitChar(d: nat): (c: char)
    requires d < 10
    ensures IsDigit(c)
  {
    (48 + d) as char
  }

  function DigitValue(c: char): (d: nat)
    requires IsDigit(c)
    ensures d < 10
  {
    c as int - 48
  }

  /** The decimal representation of a non-negative integer, as `${n}` prints it. */
  function Decimal(n: nat): (r: string)
    ensures |r| >= 1
    ensures AllDigits(r)
  {
    if n < 10 then [DigitChar(n)] else Decimal(n / 10) + [DigitChar(n % 10)]
  }

  /** The value of a run of decimal digits (`parseInt(s, 10)`, exact). */
  function ParseDigits(s: string): nat
    requires AllDigits(s)
  {
    if s == [] then 0 else 10 * ParseDigits(s[..|s| - 1]) + DigitValue(s[|s| - 1])
  }

  /** Reading back a printed number gives the number. */
  lemma {:induction false} DecimalRoundTrip(n: nat)
    ensures ParseDigits(Decimal(n)) == n
  {
    if n >= 10 {
      DecimalRoundTrip(n / 10);
      var r := Decimal(n);
      assert r[..|r| - 1] == Decimal(n / 10);
    }
  }

  /** Different numbers print differently. */
  lemma DecimalInjective(m: nat, n: nat)
    requires Decimal(m) == Decimal(n)
    ensures m == n
  {
    DecimalRoundTrip(m);
    DecimalRoundTrip(n);
  }

  /** The longest run of digits at the start of `s` (what `\d+` consumes). */
  function DigitRun(s: string): (r: string)
    ensures r <= s
    ensures AllDigits(r)
    ensures |r| < |s| ==> !IsDigit(s[|r|])
  {
    if |s| > 0 && IsDigit(s[0]) then [s[0]] + DigitRun(s[1..]) else []
  }

  lemma {:induction false} DigitRunOfDigits(s: string)
    requires AllDigits(s)
    ensures DigitRun(s) == s
  {
    if |s| > 0 {
      DigitRunOfDigits(s[1..]);
    }
  }

  /** The maximal digit run of `d + rest` is `d` when `rest` starts with a
      non-digit. */
  lemma {:induction false} DigitRunStops(d: string, rest: string)
    requires AllDigits(d)
    requires |rest| > 0 && !IsDigit(rest[0])
    ensures DigitRun(d + rest) == d
  {
    if |d| > 0 {
      assert (d + rest)[1..] == d[1..] + rest;
      DigitRunStops(d[1..], rest);
      assert d == [d[0]] + d[1..];
    } else {
      assert d + rest == rest;
    }
  }

  /** `s.match(/<label>(\d+)/)` and `parseInt` of the captured group: the
      leftmost occurrence of `tag` followed by at least one digit, read as
      the maximal digit run that follows. `None` when the pattern does not
      match anywhere. */
  function LabelNumber(s: string, tag: string): (r: Option<nat>)
    decreases |s|
  {
    if tag <= s && |tag| < |s| && IsDigit(s[|tag|]) then
      Some(ParseDigits(DigitRun(s[|tag|..])))
    else if |s| == 0 then None
    else LabelNumber(s[1..], tag)
  }

  /** A number is read only where the pattern matches: somewhere `tag` is
      followed by a digit. A name without digits never yields one. */
  lemma {:induction false} LabelNumberSound(s: string, tag: string)
    ensures LabelNumber(s, tag).Some? ==> exists i: nat :: MatchesAt(s, tag, i)
    ensures (forall i :: 0 <= i < |s| ==> !IsDigit(s[i])) ==> LabelNumber(s, tag).None?
    decreases |s|
  {
    if tag <= s && |tag| < |s| && IsDigit(s[|tag|]) {
      assert MatchesAt(s, tag, 0);
    } else if |s| > 0 {
      LabelNumberSound(s[1..], tag);
      MatchShifts(s, tag);
    }
  }

  /** `tag` occurs at `i` and a digit follows it. */
  predicate MatchesAt(s: string, tag: string, i: nat) {
    i + |tag| < |s| && s[i..i + |tag|] == tag && IsDigit(s[i + |tag|])
  }

  /** A match in `s[1..]` is a match in `s`, one position later. */
  lemma MatchShifts(s: string, tag: string)
    requires |s| > 0
    ensures (exists i: nat :: MatchesAt(s[1..], tag, i)) ==> exists i: nat :: MatchesAt(s, tag, i)
  {
    if exists i: nat :: MatchesAt(s[1..], tag, i) {
      var i: nat :| MatchesAt(s[1..], tag, i);
      assert s[1..][i..i + |tag|] == s[i + 1..i + 1 + |tag|];
      assert MatchesAt(s, tag, i + 1);
    }
  }

  /** Conversely, a match anywhere means a number is read. */
  lemma {:induction false} LabelNumberComplete(s: string, tag: string, i: nat)
    requires MatchesAt(s, tag, i)
    ensures LabelNumber(s, tag).Some?
    decreases i
  {
    MatchAtStart(s, tag);
    if i > 0 && !MatchesAt(s, tag, 0) {
      MatchInTail(s, tag, i - 1);
      LabelNumberComplete(s[1..], tag, i - 1);
    }
  }

  /** The number read is the maximal digit run after the leftmost match. */
  lemma LabelNumberLeftmost(s: string, tag: string, i: nat)
    requires MatchesAt(s, tag, i)
    requires forall j: nat :: j < i ==> !MatchesAt(s, tag, j)
    ensures LabelNumber(s, tag) == Some(ParseDigits(DigitRun(s[i + |tag|..])))
  {
    NoMatchBeforeOf(s, tag, i);
    LeftmostFrom(s, tag, i);
    var m := s[i..];
    assert m[..|tag|] == s[i..i + |tag|];
    assert MatchesAt(m, tag, 0);
    LeftmostAtStart(m, tag);
    assert m[|tag|..] == s[i + |tag|..];
  }

  /** No match at any position before `i`, stated the way `LabelNumber`
      walks the string. */
  predicate NoMatchBefore(s: string, tag: string, i: nat)
    decreases i
  {
    i == 0 || (|s| > 0 && !MatchesAt(s, tag, 0) && NoMatchBefore(s[1..], tag, i - 1))
  }

  lemma {:induction false} NoMatchBeforeOf(s: string, tag: string, i: nat)
    requires i <= |s|
    requires forall j: nat :: j < i ==> !MatchesAt(s, tag, j)
    ensures NoMatchBefore(s, tag, i)
    decreases i
  {
    if i > 0 {
      NoMatchInTail(s, tag, i);
      NoMatchBeforeOf(s[1..], tag, i - 1);
    }
  }

  /** Skipping the positions before the leftmost match does not change the
      number read. */
  lemma {:induction false} LeftmostFrom(s: string, tag: string, i: nat)
    requires i <= |s| && NoMatchBefore(s, tag, i)
    ensures LabelNumber(s, tag) == LabelNumber(s[i..], tag)
    decreases i
  {
    if i > 0 {
      LeftmostStep(s, tag);
      LeftmostFrom(s[1..], tag, i - 1);
      assert s[1..][i - 1..] == s[i..];
    }
  }

  lemma LeftmostAtStart(s: string, tag: string)
    requires MatchesAt(s, tag, 0)
    ensures LabelNumber(s, tag) == Some(ParseDigits(DigitRun(s[|tag|..])))
  {
    MatchAtStart(s, tag);
  }

  /** Past a non-match at 0, the number read is the one read from `s[1..]`. */
  lemma LeftmostStep(s: string, tag: string)
    requires |s| > 0 && !MatchesAt(s, tag, 0)
    ensures LabelNumber(s, tag) == LabelNumber(s[1..], tag)
  {
    MatchAtStart(s, tag);
  }

  /** No match before `i` in `s` means none before `i - 1` in `s[1..]`. */
  lemma NoMatchInTail(s: string, tag: string, i: nat)
    requires |s| > 0 && i > 0
    requires forall j: nat :: j < i ==> !MatchesAt(s, tag, j)
    ensures forall j: nat :: j < i - 1 ==> !MatchesAt(s[1..], tag, j)
  {
    forall j: nat | j < i - 1
      ensures !MatchesAt(s[1..], tag, j)
    {
      MatchInTail(s, tag, j);
    }
  }

  /** The first branch of `LabelNumber` is taken exactly on a match at 0. */
  lemma MatchAtStart(s: string, tag: string)
    ensures (tag <= s && |tag| < |s| && IsDigit(s[|tag|])) <==> MatchesAt(s, tag, 0)
  {
    if MatchesAt(s, tag, 0) {
      assert s[..|tag|] == tag;
    }
  }

  /** A match at `j` in `s[1..]` is a match at `j + 1` in `s`, and back. */
  lemma MatchInTail(s: string, tag: string, j: nat)
    requires |s| > 0
    ensures MatchesAt(s[1..], tag, j) <==> MatchesAt(s, tag, j + 1)
  {
    if j + 1 + |tag| < |s| {
      assert s[1..][j..j + |tag|] == s[j + 1..j + 1 + |tag|];
    }
  }

  /** A name generated as `tag` followed by a number reads back as that number. */
  lemma LabelNumberOfGenerated(tag: string, n: nat)
    ensures LabelNumber(tag + Decimal(n), tag) == Some(n)
  {
    var s := tag + Decimal(n);
    assert tag <= s;
    assert s[|tag|..] == Decimal(n);
    DigitRunOfDigits(Decimal(n));
    DecimalRoundTrip(n);
  }

  /** `id.match(/^v(\d+)$/)` and `parseInt` of the captured group. */
  function VariantNumber(id: string): (r: Option<nat>)
    ensures r.Some? <==> |id| >= 2 && id[0] == 'v' && AllDigits(id[1..])
  {
    if |id| >= 2 && id[0] == 'v' && AllDigits(id[1..]) then Some(ParseDigits(id[1..])) else None
  }

  /** The id `v<n>` matches `/^v(\d+)$/` with number `n`. */
  lemma VariantNumberOfGenerated(n: nat)
    ensures VariantNumber("v" + Decimal(n)) == Some(n)
  {
    var id := "v" + Decimal(n);
    assert id[1..] == Decimal(n);
    DecimalRoundTrip(n);
  }

  // ---------------------------------------------------------------------------
  // split and join on a one-character separator

  /** Index of the first `c` in `s`, or `|s|` when there is none. */
  function IndexOf(s: string, c: char): (i: nat)
    ensures i <= |s|
    ensures i < |s| ==> s[i] == c
    ensures forall j :: 0 <= j < i ==> s[j] != c
  {
    if |s| == 0 then 0 else if s[0] == c then 0 else 1 + IndexOf(s[1..], c)
  }

  /** `s.split(sep)` for a one-character separator. */
  function Split(s: string, sep: char): (parts: seq<string>)
    ensures |parts| >= 1
    ensures forall k :: 0 <= k < |parts| ==> sep !in parts[k]
    decreases |s|
  {
    var i := IndexOf(s, sep);
    if i == |s| then [s] else [s[..i]] + Split(s[i + 1..], sep)
  }

  /** `parts.join(sep)`. */
  function Join(parts: seq<string>, sep: char): string
  {
    if |parts| == 0 then ""
    else if |parts| == 1 then parts[0]
    else parts[0] + [sep] + Join(parts[1..], sep)
  }

  /** Joining the pieces of a split restores the string. */
  lemma {:induction false} JoinSplit(s: string, sep: char)
    ensures Join(Split(s, sep), sep) == s
    decreases |s|
  {
    var i := IndexOf(s, sep);
    if i < |s| {
      var parts := Split(s, sep);
      var rest := Split(s[i + 1..], sep);
      assert parts == [s[..i]] + rest;
      assert parts[1..] == rest;
      JoinSplit(s[i + 1..], sep);
      assert Join(parts, sep) == s[..i] + [sep] + s[i + 1..];
      assert s == s[..i] + [sep] + s[i + 1..];
    } else {
      assert Split(s, sep) == [s];
    }
  }

  /** Splitting a join of separator-free pieces gives the pieces back. */
  lemma {:induction false} SplitJoin(parts: seq<string>, sep: char)
    requires |parts| >= 1
    requires forall k :: 0 <= k < |parts| ==> sep !in parts[k]
    ensures Split(Join(parts, sep), sep) == parts
  {
    if |parts| > 1 {
      var s := Join(parts, sep);
      var rest := Join(parts[1..], sep);
      assert s == parts[0] + ([sep] + rest);
      assert IndexOf(s, sep) == |parts[0]| by {
        IndexOfAfterFree(parts[0], sep, [sep] + rest);
      }
      assert s[|parts[0]| + 1..] == rest;
      assert s[..|parts[0]|] == parts[0];
      SplitJoin(parts[1..], sep);
    } else {
      IndexOfAfterFree(parts[0], sep, []);
      assert parts[0] + [] == parts[0];
    }
  }

  lemma {:induction false} IndexOfAfterFree(a: string, c: char, b: string)
    requires c !in a
    requires b == [] || b[0] == c
    ensures IndexOf(a + b, c) == |a|
  {
    if |a| > 0 {
      assert (a + b)[1..] == a[1..] + b;
      IndexOfAfterFree(a[1..], c, b);
    } else {
      assert a + b == b;
    }
  }

  // ---------------------------------------------------------------------------
  // `.replace(/:.*$/, '')`

  predicate NoLineTerminator(s: string) {
    forall i :: 0 <= i < |s| ==> !IsLineTerminator(s[i])
  }

  /** Start of the leftmost match of `/:.*$/` at or after `i`: a `:` after
      which no line terminator occurs (`.` does not cross one and `$` is the end
      of the input), or `|s|` when nothing matches. */
  function ColonTailFrom(s: string, i: nat): (k: nat)
    requires i <= |s|
    ensures i <= k <= |s|
    ensures k < |s| ==> s[k] == ':' && NoLineTerminator(s[k + 1..])
    ensures forall j :: i <= j < k ==> !(s[j] == ':' && NoLineTerminator(s[j + 1..]))
    decreases |s| - i
  {
    if i == |s| then i
    else if s[i] == ':' && NoLineTerminator(s[i + 1..]) then i
    else ColonTailFrom(s, i + 1)
  }

  /** `s.replace(/:.*$/, '')`. */
  function StripColonTail(s: string): (r: string)
    ensures r <= s
    ensures NoLineTerminator(s) ==> r == s[..IndexOf(s, ':')]
  {
    var i := IndexOf(s, ':');
    assert NoLineTerminator(s) && i < |s| ==> NoLineTerminator(s[i + 1..]);
    s[..ColonTailFrom(s, 0)]
  }

  /** On a single-line string the replacement cuts at the first `:`. */
  lemma StripColonTailSingleLine(s: string)
    requires NoLineTerminator(s)
    ensures StripColonTail(s) == s[..IndexOf(s, ':')]
    ensures ':' !in StripColonTail(s)
  {
    var k := ColonTailFrom(s, 0);
    var i := IndexOf(s, ':');
    if i < |s| {
      assert NoLineTerminator(s[i + 1..]);
    }
  }

  // ---------------------------------------------------------------------------
  // Page helpers

  /** `truncate(text, maxLen)` of the current page: `''` for a missing or empty
      text, the text itself when it fits, else its first `maxLen` code units
      followed by `'...'`. */
  function Truncate(text: Option<string>, maxLen: nat): (r: string)
    ensures text.None? || text.value == [] ==> r == []
    ensures text.Some? && text.value != [] ==>
      (if |text.value| <= maxLen then r == text.value
       else r == text.value[..maxLen] + "...")
  {
    if text.None? || text.value == [] then []
    else if |text.value| > maxLen then Prefix(text.value, maxLen) + "..."
    else text.value
  }

  /** What a truncation looks like: it never exceeds `maxLen + 3` code units,
      it keeps a prefix of the text, and it is the text itself exactly when the
      text fits. */
  lemma TruncateShape(text: string, maxLen: nat)
    requires text != []
    ensures |Truncate(Some(text), maxLen)| <= maxLen + 3
    ensures |text| <= maxLen ==> Truncate(Some(text), maxLen) == text
    ensures |text| > maxLen ==> |Truncate(Some(text), maxLen)| == maxLen + 3
    ensures Truncate(Some(text), maxLen) == text
         || (Truncate(Some(text), maxLen)[..maxLen] <= text
             && Truncate(Some(text), maxLen)[maxLen..] == "...")
  {
    var r := Truncate(Some(text), maxLen);
    if |text| > maxLen {
      assert |r| == maxLen + 3;
    }
  }

  /** `shortModelName(modelId)`: the second `/`-separated segment when there is
      one, else the whole id, cut by `/:.*$/`. */
  function ShortModelName(modelId: string): (name: string)
    ensures '/' !in name
    ensures '/' !in modelId ==> name == StripColonTail(modelId)
    ensures '/' !in modelId && NoLineTerminator(modelId) ==> name == modelId[..IndexOf(modelId, ':')]
    ensures '/' in modelId ==>
      var tail := modelId[IndexOf(modelId, '/') + 1..];
      name == StripColonTail(tail[..IndexOf(tail, '/')])
  {
    var segment := Segment(modelId);
    NoneInPrefix(StripColonTail(segment), segment, '/');
    StripColonTail(segment)
  }

  /** A prefix of a string without `c` has no `c` either. */
  lemma NoneInPrefix(p: string, s: string, c: char)
    requires p <= s && c !in s
    ensures c !in p
  {
  }

  /** The piece `shortModelName` keeps before the cut: the second
      `/`-separated segment when there is one, else the whole id. */
  function Segment(modelId: string): (segment: string)
    ensures '/' !in segment
    ensures '/' !in modelId ==> segment == modelId
    ensures '/' in modelId ==>
      var tail := modelId[IndexOf(modelId, '/') + 1..];
      segment == tail[..IndexOf(tail, '/')]
  {
    var parts := Split(modelId, '/');
    SplitSegments(modelId, '/');
    if |parts| > 1 then parts[1] else parts[0]
  }

  /** Without the separator `split` gives the whole string; with it, the
      second piece runs from after the first separator to the next one. */
  lemma SplitSegments(s: string, sep: char)
    ensures sep !in s ==> Split(s, sep) == [s]
    ensures sep in s ==>
      var tail := s[IndexOf(s, sep) + 1..];
      |Split(s, sep)| > 1 && Split(s, sep)[1] == tail[..IndexOf(tail, sep)]
  {
    var i := IndexOf(s, sep);
    if i < |s| {
      var tail := s[i + 1..];
      assert Split(s, sep) == [s[..i]] + Split(tail, sep);
      SplitFirst(tail, sep);
    }
  }

  /** The first piece of a split runs up to the first separator. */
  lemma SplitFirst(s: string, sep: char)
    ensures Split(s, sep)[0] == s[..IndexOf(s, sep)]
  {
    var i := IndexOf(s, sep);
    if i == |s| {
      assert Split(s, sep) == [s];
      assert s[..i] == s;
    } else {
      var rest := Split(s[i + 1..], sep);
      assert Split(s, sep) == [s[..i]] + rest;
      assert ([s[..i]] + rest)[0] == s[..i];
    }
  }

  /** For a provider-qualified id `vendor/model[:tag]` on one line, the short
      name is `model`. */
  lemma ShortModelNameOfQualified(vendor: string, model: string, tag: Option<string>)
    requires '/' !in vendor && '/' !in model && ':' !in model
    requires NoLineTerminator(model)
    requires tag.Some? ==> '/' !in tag.value && NoLineTerminator(tag.value)
    ensures ShortModelName(vendor + "/" + model + (if tag.Some? then ":" + tag.value else "")) == model
  {
    var suffix := if tag.Some? then ":" + tag.value else "";
    TagSuffix(tag);
    var tail := model + suffix;
    assert '/' !in tail;
    assert vendor + "/" + model + suffix == vendor + "/" + tail;
    ShortNameOfPair(vendor, tail);
    StripColonTailOfTagged(model, suffix);
  }

  /** The `:tag` suffix of a model id, empty when there is no tag. */
  lemma TagSuffix(tag: Option<string>)
    requires tag.Some? ==> '/' !in tag.value && NoLineTerminator(tag.value)
    ensures var suffix := if tag.Some? then ":" + tag.value else "";
            '/' !in suffix && NoLineTerminator(suffix) && (suffix == [] || suffix[0] == ':')
  {
    if tag.Some? {
      var suffix := ":" + tag.value;
      forall i | 0 <= i < |suffix|
        ensures !IsLineTerminator(suffix[i])
      {
        if i > 0 {
          assert suffix[i] == tag.value[i - 1];
        }
      }
    }
  }

  /** The short name of `vendor/tail`, neither part holding a `/`, is `tail`
      cut by `/:.*$/`. */
  lemma ShortNameOfPair(vendor: string, tail: string)
    requires '/' !in vendor && '/' !in tail
    ensures ShortModelName(vendor + "/" + tail) == StripColonTail(tail)
  {
    var id := vendor + "/" + tail;
    assert id == vendor + ("/" + tail);
    IndexOfAfterFree(vendor, '/', "/" + tail);
    assert id[|vendor| + 1..] == tail;
    assert tail[..IndexOf(tail, '/')] == tail;
  }

  /** Cutting `model` followed by nothing or by `:tag`, all on one line, at its
      first `:` leaves `model`. */
  lemma StripColonTailOfTagged(model: string, suffix: string)
    requires ':' !in model && NoLineTerminator(model) && NoLineTerminator(suffix)
    requires suffix == [] || suffix[0] == ':'
    ensures StripColonTail(model + suffix) == model
  {
    var tail := model + suffix;
    assert NoLineTerminator(tail) by {
      forall i | 0 <= i < |tail|
        ensures !IsLineTerminator(tail[i])
      {
        if i >= |model| {
          assert tail[i] == suffix[i - |model|];
        }
      }
    }
    StripColonTailSingleLine(tail);
    IndexOfAfterFree(model, ':', suffix);
    assert tail[..|model|] == model;
  }
}
