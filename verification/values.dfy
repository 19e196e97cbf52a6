/** Raw field values as the extraction service delivers them, and the one
    cleaning rule the results view applies to them. The rule exists twice in
    the source: once for the screen (`formatValue`) and once inline in the CSV
    export. The two copies agree on truthy values and disagree on falsy ones,
    which this module makes explicit with `DisplayValue` and `CsvCell`. */
module Values {
  import opened JsStrings

  /** `Number.MAX_SAFE_INTEGER`, 2^53 - 1. */
  const MaxSafeInteger: int := 0x1F_FFFF_FFFF_FFFF

  /** The integers a JavaScript number holds exactly and `toString` prints
      as plain decimal digits. Beyond this range `toString` prints the
      shortest digits that read back to the same double, padded with zeros,
      and from 10^21 on it switches to exponent form. */
  type SafeInteger = n: int | -MaxSafeInteger <= n <= MaxSafeInteger

  /** A value under one field key: missing or `null`, a JSON string, or a JSON
      number. Only integral numbers in the safe range are modelled. */
  datatype RawValue = Absent | Str(text: string) | Num(n: SafeInteger)

  /** JavaScript truthiness: `undefined`, `null`, `""` and `0` are falsy.
      Put in terms of the printed form: a present value is falsy exactly
      when it prints as nothing, or is a number that prints as `"0"` (the
      string `"0"` is truthy). */
  predicate Truthy(v: RawValue)
    ensures Truthy(v) <==> !v.Absent? && ToJsString(v) != "" && !(v.Num? && ToJsString(v) == "0")
  {
    match v
    case Absent => false
    case Str(s) => s != ""
    case Num(n) => IntToStringZero(n); n != 0
  }

  /** `value.toString()` for a present value. */
  function ToJsString(v: RawValue): string
    requires !v.Absent?
  {
    if v.Str? then v.text else IntToString(v.n)
  }

  /** The characters the cleaning regular expression `/[$,]/g` removes. */
  const CurrencyMarks: set<char> := {'$', ','}

  /** `r` is `t` cut just before its first `.` (all of `t` when it has none). */
  ghost predicate IsTruncationOf(r: string, t: string) {
    && r <= t
    && '.' !in r
    && (r == t || t[|r|] == '.')
  }

  /** The truncation is determined by `t`: the predicate above pins down a
      single string. */
  lemma TruncationIsUnique(r1: string, r2: string, t: string)
    requires IsTruncationOf(r1, t) && IsTruncationOf(r2, t)
    ensures r1 == r2
  {
  }

  /** `s.replace(/[$,]/g, '').split('.')[0]`: currency symbols and thousands
      separators dropped, then everything from the first `.` on cut off (the
      fraction is truncated, never rounded). */
  function Clean(s: string): (r: string)
    ensures '$' !in r && ',' !in r && '.' !in r
    ensures IsTruncationOf(r, RemoveAll(s, CurrencyMarks))
  {
    RemoveAllKeeps(s, CurrencyMarks);
    Split(RemoveAll(s, CurrencyMarks), '.')[0]
  }

  /** A string with no `$`, `,` or `.` is already clean. */
  lemma CleanFixesCleanStrings(s: string)
    requires '$' !in s && ',' !in s && '.' !in s
    ensures Clean(s) == s
  {
    RemoveAllIdentity(s, CurrencyMarks);
    var t := RemoveAll(s, CurrencyMarks);
    assert t == s;
  }

  /** Cleaning twice is cleaning once. */
  lemma CleanIdempotent(s: string)
    ensures Clean(Clean(s)) == Clean(s)
  {
    CleanFixesCleanStrings(Clean(s));
  }

  /** The on-screen value of a field (`formatValue`): `"0"` for every falsy
      raw value, otherwise the cleaned string form. */
  function DisplayValue(v: RawValue): (r: string)
    ensures !Truthy(v) ==> r == "0"
    ensures Truthy(v) ==> IsTruncationOf(r, RemoveAll(ToJsString(v), CurrencyMarks))
    ensures '$' !in r && ',' !in r && '.' !in r
  {
    if !Truthy(v) then "0" else Clean(ToJsString(v))
  }

  /** The CSV value cell before quoting (`(value || '').toString()` followed
      by the same cleaning): a falsy value becomes `''`, not `"0"`. */
  function CsvCell(v: RawValue): (r: string)
    ensures '$' !in r && ',' !in r && '.' !in r
  {
    Clean(if Truthy(v) then ToJsString(v) else "")
  }

  /** The two copies of the rule agree on truthy values and disagree on every
      falsy one: the screen shows `"0"` where the CSV cell is empty. */
  lemma DisplayVersusCsv(v: RawValue)
    ensures Truthy(v) ==> CsvCell(v) == DisplayValue(v)
    ensures !Truthy(v) ==> CsvCell(v) == "" && DisplayValue(v) == "0"
    ensures CsvCell(v) != DisplayValue(v) <==> !Truthy(v)
  {
    if !Truthy(v) {
      assert RemoveAll("", CurrencyMarks) == "";
    }
  }

  /** The on-screen rule is idempotent on its own non-empty output: showing a
      shown value again changes nothing. (The empty output of a value such as
      `"$"` is falsy and would show as `"0"`.) */
  lemma DisplayIdempotent(v: RawValue)
    ensures DisplayValue(v) != "" ==> DisplayValue(Str(DisplayValue(v))) == DisplayValue(v)
  {
    var r := DisplayValue(v);
    if r != "" {
      CleanFixesCleanStrings(r);
    }
  }

  /** A leading minus sign survives cleaning. */
  lemma LeadingMinusKept(v: RawValue)
    requires Truthy(v) && ToJsString(v)[0] == '-'
    ensures |DisplayValue(v)| > 0 && DisplayValue(v)[0] == '-'
  {
    var s := ToJsString(v);
    RemoveAllAppend([s[0]], s[1..], CurrencyMarks);
    assert [s[0]] + s[1..] == s;
    var t := RemoveAll(s, CurrencyMarks);
    assert t[0] == '-';
  }

  /** A numeric value is shown as its exact decimal integer, including zero
      (which is falsy but shown as `"0"` all the same); the CSV cell matches
      except for zero, which is left empty. */
  lemma NumberShownExactly(n: SafeInteger)
    ensures DisplayValue(Num(n)) == IntToString(n)
    ensures CsvCell(Num(n)) == (if n == 0 then "" else IntToString(n))
    ensures ParseInt(DisplayValue(Num(n))) == n
  {
    var s := IntToString(n);
    assert forall c :: c in s ==> c == '-' || IsDigit(c);
    CleanFixesCleanStrings(s);
    DisplayVersusCsv(Num(n));
    IntToStringRoundTrip(n);
  }

  /** Cleaning is determined by what the currency removal leaves behind. */
  lemma CleanedTo(s: string, t: string, r: string)
    requires RemoveAll(s, CurrencyMarks) == t
    requires IsTruncationOf(r, t)
    ensures Clean(s) == r
  {
    TruncationIsUnique(Clean(s), r, t);
  }

  /** Worked example: symbols and separators go, cents are truncated. */
  lemma CleaningExampleAmount()
    ensures DisplayValue(Str("$1,234.56")) == "1234"
  {
    assert Clean("$1,234.56") == "1234" by {
      assert RemoveAll("$1,234.56", CurrencyMarks) == "1234.56";
      CleanedTo("$1,234.56", "1234.56", "1234");
    }
  }

  /** Worked example: a leading minus survives, the fraction is truncated
      toward zero rather than rounded. */
  lemma CleaningExampleNegative()
    ensures DisplayValue(Str("-$50.99")) == "-50"
  {
    assert Clean("-$50.99") == "-50" by {
      assert RemoveAll("-$50.99", CurrencyMarks) == "-50.99";
      CleanedTo("-$50.99", "-50.99", "-50");
    }
  }

  /** Worked examples: truthy inputs that clean to nothing, and one that
      cleans to `"0"` although it is not zero. */
  lemma CleaningExamplesDegenerate()
    ensures DisplayValue(Str("$")) == ""
    ensures DisplayValue(Str(".5")) == ""
    ensures DisplayValue(Str("0.75")) == "0"
  {
    assert RemoveAll("$", CurrencyMarks) == "";
    CleanedTo("$", "", "");
    assert RemoveAll(".5", CurrencyMarks) == ".5";
    CleanedTo(".5", ".5", "");
    assert RemoveAll("0.75", CurrencyMarks) == "0.75";
    CleanedTo("0.75", "0.75", "0");
  }

  /** Worked examples: cleaning does not look for a number. Text without
      `$`, `,` and `.` passes through unchanged, and other text only loses
      those marks and whatever follows its first `.`; so a cleaned value is
      not always an optional `-` followed by digits. */
  lemma CleaningExampleText()
    ensures DisplayValue(Str("N/A")) == "N/A"
    ensures DisplayValue(Str("$abc")) == "abc"
    ensures DisplayValue(Str("a.b")) == "a"
  {
    CleanFixesCleanStrings("N/A");
    CleanDropsMarkFromText();
    CleanCutsTextAtDot();
  }

  /** A currency mark goes even when the rest is not a number. */
  lemma CleanDropsMarkFromText()
    ensures Clean("$abc") == "abc"
  {
    assert RemoveAll("$abc", CurrencyMarks) == "abc";
    CleanedTo("$abc", "abc", "abc");
  }

  /** Text is cut at its first `.` even when it is not a number. */
  lemma CleanCutsTextAtDot()
    ensures Clean("a.b") == "a"
  {
    assert RemoveAll("a.b", CurrencyMarks) == "a.b";
    CleanedTo("a.b", "a.b", "a");
  }

  /** Worked examples: the falsy inputs, on screen and in the CSV. */
  lemma CleaningExamplesFalsy()
    ensures DisplayValue(Absent) == "0" && DisplayValue(Str("")) == "0" && DisplayValue(Num(0)) == "0"
    ensures CsvCell(Absent) == "" && CsvCell(Str("")) == "" && CsvCell(Num(0)) == ""
  {
    DisplayVersusCsv(Absent);
    DisplayVersusCsv(Str(""));
    DisplayVersusCsv(Num(0));
  }
}
