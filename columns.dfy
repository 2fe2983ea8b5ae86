/** Header normalisation of the loader: every column name is stripped of
    surrounding whitespace and title-cased, the close/last-price column must be
    present, and it is renamed to the canonical price column. */
module Columns {
  import opened Wrappers

  /** The header the price column must carry after normalisation. */
  const CloseLast: string := "Close/Last"
  /** The canonical name the price column is renamed to. */
  const PriceName: string := "Price"
  /** The name of the date column the frame is indexed by. */
  const DateName: string := "Date"

  /** Why a load was refused; the source prints the cause and returns no frame.
      A second column called Date makes `set_index('Date')` select two columns
      and raise. */
  datatype LoadError =
    | MissingPriceColumn(available: seq<string>)
    | AmbiguousPriceColumn(available: seq<string>)
    | DuplicateDateColumn(available: seq<string>)

  // ---------------------------------------------------------------------------
  // Stripping (Python's str.strip() without arguments)
  // ---------------------------------------------------------------------------

  /** Python's str.isspace for one character: the characters str.strip() removes. */
  predicate IsSpace(c: char) {
    || ('\U{9}' <= c <= '\U{D}')
    || ('\U{1C}' <= c <= '\U{20}')
    || c == '\U{85}' || c == '\U{A0}' || c == '\U{1680}'
    || ('\U{2000}' <= c <= '\U{200A}')
    || c == '\U{2028}' || c == '\U{2029}' || c == '\U{202F}'
    || c == '\U{205F}' || c == '\U{3000}'
  }

  predicate AllSpace(s: string) {
    forall i :: 0 <= i < |s| ==> IsSpace(s[i])
  }

  /** Drops the leading whitespace: the result is a suffix of `s`, what was
      dropped is whitespace, and the result does not start with whitespace. */
  function StripLeading(s: string): (r: string)
    ensures |r| <= |s| && r == s[|s| - |r|..]
    ensures AllSpace(s[..|s| - |r|])
    ensures r == [] || !IsSpace(r[0])
  {
    if |s| > 0 && IsSpace(s[0]) then
      var r := StripLeading(s[1..]);
      LeadingSpace(s, r);
      r
    else s
  }

  /** A whitespace character in front of a whitespace prefix extends it. */
  lemma LeadingSpace(s: string, r: string)
    requires |s| > 0 && IsSpace(s[0])
    requires |r| <= |s| - 1 && r == s[1..][|s| - 1 - |r|..] && AllSpace(s[1..][..|s| - 1 - |r|])
    ensures r == s[|s| - |r|..] && AllSpace(s[..|s| - |r|])
  {
    assert s[..|s| - |r|] == [s[0]] + s[1..][..|s| - 1 - |r|];
  }

  /** Drops the trailing whitespace: the result is a prefix of `s`, what was
      dropped is whitespace, and the result does not end with whitespace. */
  function StripTrailing(s: string): (r: string)
    ensures |r| <= |s| && r == s[..|r|]
    ensures AllSpace(s[|r|..])
    ensures r == [] || !IsSpace(r[|r| - 1])
  {
    if |s| > 0 && IsSpace(s[|s| - 1]) then
      var r := StripTrailing(s[..|s| - 1]);
      TrailingSpace(s, r);
      r
    else s
  }

  /** A whitespace character after a whitespace suffix extends it. */
  lemma TrailingSpace(s: string, r: string)
    requires |s| > 0 && IsSpace(s[|s| - 1])
    requires |r| <= |s| - 1 && r == s[..|s| - 1][..|r|] && AllSpace(s[..|s| - 1][|r|..])
    ensures r == s[..|r|] && AllSpace(s[|r|..])
  {
    assert s[|r|..] == s[..|s| - 1][|r|..] + [s[|s| - 1]];
  }

  /** `r` is the part of `s` from index `i` on that lies between a whitespace
      prefix and a whitespace suffix. */
  predicate Trimmed(s: string, i: nat, r: string) {
    && i + |r| <= |s|
    && r == s[i..i + |r|]
    && AllSpace(s[..i]) && AllSpace(s[i + |r|..])
  }

  /** str.strip(): the result is the part of `s` between a whitespace prefix
      and a whitespace suffix, and it neither starts nor ends with whitespace. */
  function Strip(s: string): (r: string)
    ensures Trimmed(s, |s| - |StripLeading(s)|, r)
    ensures r == [] || (!IsSpace(r[0]) && !IsSpace(r[|r| - 1]))
  {
    var a := StripLeading(s);
    var r := StripTrailing(a);
    StripParts(s, a, r);
    r
  }

  lemma StripParts(s: string, a: string, r: string)
    requires |a| <= |s| && a == s[|s| - |a|..] && AllSpace(s[..|s| - |a|])
    requires |r| <= |a| && r == a[..|r|] && AllSpace(a[|r|..])
    requires a == [] || !IsSpace(a[0])
    requires r == [] || !IsSpace(r[|r| - 1])
    ensures Trimmed(s, |s| - |a|, r)
    ensures r == [] || (!IsSpace(r[0]) && !IsSpace(r[|r| - 1]))
  {
    var i := |s| - |a|;
    assert s[i + |r|..] == a[|r|..];
    if r != [] {
      assert r[0] == a[0];
    }
  }

  /** Stripping a string with no whitespace at either end leaves it as it is. */
  lemma {:induction false} StripKeepsTrimmed(s: string)
    requires s == [] || (!IsSpace(s[0]) && !IsSpace(s[|s| - 1]))
    ensures Strip(s) == s
  {
  }

  /** str.strip() is idempotent. */
  lemma StripIdempotent(s: string)
    ensures Strip(Strip(s)) == Strip(s)
  {
    StripKeepsTrimmed(Strip(s));
  }

  // ---------------------------------------------------------------------------
  // Title-casing (Python's str.title() on ASCII letters)
  // ---------------------------------------------------------------------------

  predicate IsUpper(c: char) { 'A' <= c <= 'Z' }
  predicate IsLower(c: char) { 'a' <= c <= 'z' }
  /** A cased character: one that has an upper- and a lower-case form. */
  predicate IsCased(c: char) { IsUpper(c) || IsLower(c) }

  function ToUpper(c: char): (u: char)
    ensures IsCased(u) == IsCased(c)
    ensures !IsLower(u)
    ensures !IsCased(c) ==> u == c
  {
    if IsLower(c) then (c as int - 32) as char else c
  }

  function ToLower(c: char): (l: char)
    ensures IsCased(l) == IsCased(c)
    ensures !IsUpper(l)
    ensures !IsCased(c) ==> l == c
  {
    if IsUpper(c) then (c as int + 32) as char else c
  }

  /** The str.title() scan: a cased character is upper-cased when the character
      before it is not cased and lower-cased when it is; `previousCased` says
      whether the character before `s` was cased. */
  function TitleFrom(s: string, previousCased: bool): (r: string)
    ensures |r| == |s|
    ensures forall i :: 0 <= i < |s| ==> IsCased(r[i]) == IsCased(s[i])
    ensures forall i :: 0 <= i < |s| && !IsCased(s[i]) ==> r[i] == s[i]
  {
    if s == [] then []
    else
      [if previousCased then ToLower(s[0]) else ToUpper(s[0])]
      + TitleFrom(s[1..], IsCased(s[0]))
  }

  /** str.title(): only the case of letters changes. */
  function TitleCase(s: string): (r: string)
    ensures |r| == |s|
    ensures forall i :: 0 <= i < |s| ==> IsCased(r[i]) == IsCased(s[i])
    ensures forall i :: 0 <= i < |s| && !IsCased(s[i]) ==> r[i] == s[i]
  {
    TitleFrom(s, false)
  }

  /** Character `i` of the title-cased string: upper case where a word starts
      (at the front or after a character that is not cased), lower case inside
      a word, and every uncased character unchanged. */
  lemma {:induction false} TitleFromAt(s: string, previousCased: bool, i: nat)
    requires i < |s|
    ensures TitleFrom(s, previousCased)[i]
      == if (if i == 0 then previousCased else IsCased(s[i - 1])) then ToLower(s[i]) else ToUpper(s[i])
  {
    if i > 0 {
      TitleFromAt(s[1..], IsCased(s[0]), i - 1);
    }
  }

  lemma TitleCaseAt(s: string, i: nat)
    requires i < |s|
    ensures TitleCase(s)[i] == if i > 0 && IsCased(s[i - 1]) then ToLower(s[i]) else ToUpper(s[i])
  {
    TitleFromAt(s, false, i);
  }

  /** Title-casing an already title-cased string changes nothing. */
  lemma {:induction false} TitleFromIdempotent(s: string, previousCased: bool)
    ensures TitleFrom(TitleFrom(s, previousCased), previousCased) == TitleFrom(s, previousCased)
  {
    if s != [] {
      var t := TitleFrom(s, previousCased);
      assert t[1..] == TitleFrom(s[1..], IsCased(s[0]));
      assert IsCased(t[0]) == IsCased(s[0]);
      TitleFromIdempotent(s[1..], IsCased(s[0]));
    }
  }

  lemma TitleCaseIdempotent(s: string)
    ensures TitleCase(TitleCase(s)) == TitleCase(s)
  {
    TitleFromIdempotent(s, false);
  }

  // ---------------------------------------------------------------------------
  // Normalised header
  // ---------------------------------------------------------------------------

  /** `c.strip().title()` for one column name: no longer than the name, and
      without whitespace at either end. */
  function NormaliseName(c: string): (r: string)
    ensures |r| <= |c|
    ensures r == [] || (!IsSpace(r[0]) && !IsSpace(r[|r| - 1]))
  {
    var s := Strip(c);
    TitleKeepsEnds(s);
    TitleCase(s)
  }

  /** A letter is not whitespace. */
  lemma CasedIsNotSpace(c: char)
    ensures IsCased(c) ==> !IsSpace(c)
  {
  }

  /** Title-casing keeps a string free of whitespace at either end. */
  lemma TitleKeepsEnds(s: string)
    requires s == [] || (!IsSpace(s[0]) && !IsSpace(s[|s| - 1]))
    ensures var t := TitleCase(s); t == [] || (!IsSpace(t[0]) && !IsSpace(t[|t| - 1]))
  {
    if s != [] {
      var t := TitleCase(s);
      CasedIsNotSpace(t[0]);
      CasedIsNotSpace(t[|t| - 1]);
    }
  }

  /** The header after `[c.strip().title() for c in df.columns]`. */
  function NormaliseColumns(header: seq<string>): (names: seq<string>)
    ensures |names| == |header|
    ensures forall i :: 0 <= i < |header| ==> names[i] == NormaliseName(header[i])
  {
    seq(|header|, i requires 0 <= i < |header| => NormaliseName(header[i]))
  }

  /** Normalising a name twice gives the same name as normalising it once:
      title-casing keeps whitespace where it was, so nothing is left to strip. */
  lemma NormaliseNameIdempotent(c: string)
    ensures NormaliseName(NormaliseName(c)) == NormaliseName(c)
  {
    StripKeepsTrimmed(NormaliseName(c));
    TitleCaseIdempotent(Strip(c));
  }

  /** A lower-case, padded header is recognised as the price column. */
  lemma PaddedLowerCaseHeader()
    ensures NormaliseName(" close/last ") == CloseLast
  {
    StripPadded();
    TitleCaseLower();
  }

  lemma StripPadded()
    ensures Strip(" close/last ") == "close/last"
  {
    LeadingPadded();
    TrailingPadded();
  }

  lemma LeadingPadded()
    ensures StripLeading(" close/last ") == "close/last "
  {
    var s := " close/last ";
    assert s[1..] == "close/last ";
    assert !IsSpace(s[1..][0]);
  }

  lemma TrailingPadded()
    ensures StripTrailing("close/last ") == "close/last"
  {
    var s := "close/last ";
    assert s[..10] == "close/last";
    assert !IsSpace(s[..10][9]);
  }

  lemma TitleCaseLower()
    ensures TitleCase("close/last") == CloseLast
  {
    var s := "close/last";
    var t := TitleCase(s);
    forall i | 0 <= i < |s|
      ensures t[i] == CloseLast[i]
    {
      TitleCaseAt(s, i);
    }
  }

  /** The canonical price header is already normalised. */
  lemma CloseLastNormal()
    ensures NormaliseName(CloseLast) == CloseLast
  {
    TitleCaseLower();
    TitleCaseIdempotent("close/last");
    CloseLastTrimmed();
  }

  lemma CloseLastTrimmed()
    ensures Strip(CloseLast) == CloseLast
  {
    var s := CloseLast;
    assert !IsSpace(s[0]) && !IsSpace(s[|s| - 1]);
    StripKeepsTrimmed(s);
  }

  /** A lower-case date header with a leading space normalises to Date. */
  lemma PaddedDateHeader()
    ensures NormaliseName(" date") == DateName
  {
    StripDate();
    TitleCaseDate();
  }

  lemma StripDate()
    ensures Strip(" date") == "date"
  {
    var s := " date";
    assert s[1..] == "date";
    assert !IsSpace(s[1..][0]);
    assert StripLeading(s) == "date";
    StripKeepsTrimmed("date");
  }

  lemma TitleCaseDate()
    ensures TitleCase("date") == DateName
  {
    var s := "date";
    var t := TitleCase(s);
    forall i | 0 <= i < |s|
      ensures t[i] == DateName[i]
    {
      TitleCaseAt(s, i);
    }
  }

  /** The title-case scan of a concatenation continues from the last
      character of the first part. */
  lemma {:induction false} TitleFromAppend(a: string, b: string, previousCased: bool)
    ensures TitleFrom(a + b, previousCased)
      == TitleFrom(a, previousCased) + TitleFrom(b, if a == [] then previousCased else IsCased(a[|a| - 1]))
  {
    if a == [] {
      assert a + b == b;
    } else {
      assert (a + b)[1..] == a[1..] + b;
      TitleFromAppend(a[1..], b, IsCased(a[0]));
    }
  }

  // ---------------------------------------------------------------------------
  // Locating and renaming the price column
  // ---------------------------------------------------------------------------

  /** How many columns carry the name `x`. */
  function Count(names: seq<string>, x: string): (n: nat)
    ensures n <= |names|
    ensures n == 0 <==> x !in names
  {
    if names == [] then 0
    else (if names[0] == x then 1 else 0) + Count(names[1..], x)
  }

  /** `df.rename(columns={'Close/Last': 'Price'})`: every column named
      Close/Last is renamed, the others keep their names. */
  function Rename(names: seq<string>): (r: seq<string>)
    ensures |r| == |names| && CloseLast !in r
    ensures forall i :: 0 <= i < |names| && names[i] == CloseLast ==> r[i] == PriceName
    ensures forall i :: 0 <= i < |names| && names[i] != CloseLast ==> r[i] == names[i]
  {
    seq(|names|, i requires 0 <= i < |names| => if names[i] == CloseLast then PriceName else names[i])
  }

  /** After renaming, the columns called Price are the former Close/Last
      columns and the columns that were already called Price. */
  lemma {:induction false} RenameCount(names: seq<string>)
    ensures Count(Rename(names), PriceName) == Count(names, CloseLast) + Count(names, PriceName)
    ensures forall x :: x != PriceName && x != CloseLast ==> Count(Rename(names), x) == Count(names, x)
  {
    if names != [] {
      assert Rename(names)[1..] == Rename(names[1..]);
      RenameCount(names[1..]);
    }
  }

  /** The index of the first column named `x`. */
  function IndexOf(names: seq<string>, x: string): (k: nat)
    requires x in names
    ensures k < |names| && names[k] == x
    ensures forall j :: 0 <= j < k ==> names[j] != x
  {
    if names[0] == x then 0 else 1 + IndexOf(names[1..], x)
  }

  /** Exactly one column carries `x` at index k. */
  lemma {:induction false} CountOne(names: seq<string>, x: string, k: nat)
    requires Count(names, x) == 1 && k < |names| && names[k] == x
    ensures forall j :: 0 <= j < |names| && j != k ==> names[j] != x
  {
    if names[0] == x {
      assert Count(names[1..], x) == 0;
      assert x !in names[1..];
      forall j | 0 < j < |names| ensures names[j] != x {
        assert names[j] == names[1..][j - 1];
      }
    } else {
      CountOne(names[1..], x, k - 1);
      forall j | 0 < j < |names| && j != k ensures names[j] != x {
        assert names[j] == names[1..][j - 1];
      }
    }
  }

  /** The loader's column check: the price column must exist under Close/Last,
      it is renamed to Price, and `df['Price']` must then select exactly one
      column (with two, it selects a frame and `.dtype` raises, which the
      loader turns into a failed load). */
  function LocatePriceColumn(names: seq<string>): (r: Result<nat, LoadError>)
    ensures r.Success? <==> Count(names, CloseLast) == 1 && PriceName !in names
    ensures r.Success? ==> r.value < |names| && names[r.value] == CloseLast
    ensures r.Success? ==> forall j :: 0 <= j < |names| && j != r.value ==> names[j] != CloseLast
    ensures CloseLast !in names <==> r == Failure(MissingPriceColumn(names))
  {
    if CloseLast !in names then Failure(MissingPriceColumn(names))
    else
      var renamed := Rename(names);
      RenameCount(names);
      if Count(renamed, PriceName) != 1 then Failure(AmbiguousPriceColumn(names))
      else
        var k := IndexOf(names, CloseLast);
        CountOne(names, CloseLast, k);
        Success(k)
  }
}
