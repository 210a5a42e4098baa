/** Textual plausibility scoring after the layout assignment: which fields
    are read by OCR, how the OCR text of the pages is collected, and how
    each field's text is scored for format and length. OCR itself is not
    modelled; its text is an input. */
module TextScoring {
  import opened Common
  import SemanticAssignment

  // ---------------------------------------------------------------------------
  // Which fields need OCR
  // ---------------------------------------------------------------------------

  /** Field-name fragments that mark a field as graphical (no OCR). */
  const NonOcrKeywords: seq<string> :=
    ["photo", "codigo", "firma", "escudo", "huella", "logo", "microphoto", "qr", "photo_", "mariposa", "micro"]

  /** Some keyword occurs in `s`. */
  predicate ContainsAny(s: string, keywords: seq<string>)
  {
    exists k :: k in keywords && Contains(s, k)
  }

  function FirstContained(s: string, keywords: seq<string>): (r: bool)
    ensures r <==> ContainsAny(s, keywords)
  {
    if |keywords| == 0 then false
    else Contains(s, keywords[0]) || (assert forall k :: k in keywords[1..] ==> k in keywords;
                                      FirstContained(s, keywords[1..]))
  }

  /** `needs_ocr`: false iff the lower-cased field name contains a graphical
      keyword. */
  function NeedsOcr(fieldName: string): (r: bool)
    ensures r <==> forall k :: k in NonOcrKeywords ==> !Contains(Lower(fieldName), k)
  {
    !FirstContained(Lower(fieldName), NonOcrKeywords)
  }

  /** The keyword test is case-insensitive. */
  lemma NeedsOcrIgnoresCase(a: string, b: string)
    requires Lower(a) == Lower(b)
    ensures NeedsOcr(a) == NeedsOcr(b)
  {
  }

  lemma PhotoFieldsSkipOcr(fieldName: string)
    requires Contains(Lower(fieldName), "photo")
    ensures !NeedsOcr(fieldName)
  {
    assert "photo" in NonOcrKeywords;
  }

  // ---------------------------------------------------------------------------
  // Collecting the OCR text
  // ---------------------------------------------------------------------------

  /** The value stored for a field of a page: a merged box (or none), or,
      after OCR enrichment, a record with the box and the recognised text. */
  datatype Entry = Plain | Enriched(text: string)

  /** The texts of one page, keyed as in `get_textual_data`. */
  function PageTexts(pageCount: nat, page: nat, entries: seq<(string, Entry)>): (r: seq<(string, string)>)
    ensures forall k, t :: (k, t) in r <==>
      exists j :: 0 <= j < |entries| && entries[j].1 == Enriched(t) && t != "" &&
                  k == SemanticAssignment.FieldKey(pageCount, page, entries[j].0)
  {
    if |entries| == 0 then []
    else
      var rest := PageTexts(pageCount, page, entries[..|entries| - 1]);
      var e := entries[|entries| - 1];
      assert forall j :: 0 <= j < |entries| - 1 ==> entries[..|entries| - 1][j] == entries[j];
      if e.1.Enriched? && e.1.text != "" then
        rest + [(SemanticAssignment.FieldKey(pageCount, page, e.0), e.1.text)]
      else rest
  }

  /** `(k, t)` is among the texts of one of the pages. */
  predicate InSomePage(pageCount: nat, pages: seq<seq<(string, Entry)>>, k: string, t: string)
  {
    exists i :: 0 <= i < |pages| && (k, t) in PageTexts(pageCount, i, pages[i])
  }

  function PagesTexts(pageCount: nat, pages: seq<seq<(string, Entry)>>): (r: seq<(string, string)>)
    ensures forall k, t :: (k, t) in r <==> InSomePage(pageCount, pages, k, t)
  {
    if |pages| == 0 then []
    else
      var n := |pages| - 1;
      InSomePageSnoc(pageCount, pages);
      PagesTexts(pageCount, pages[..n]) + PageTexts(pageCount, n, pages[n])
  }

  /** A text is on one of the pages when it is on one of the earlier pages
      or on the last one. */
  lemma InSomePageSnoc(pageCount: nat, pages: seq<seq<(string, Entry)>>)
    requires |pages| > 0
    ensures var n := |pages| - 1;
      forall k, t :: InSomePage(pageCount, pages, k, t) <==>
        InSomePage(pageCount, pages[..n], k, t) || (k, t) in PageTexts(pageCount, n, pages[n])
  {
    var n := |pages| - 1;
    assert forall i :: 0 <= i < n ==> pages[..n][i] == pages[i];
  }

  /** `get_textual_data`: every enriched field with non-empty text, keyed
      `page{i}_{field}` when there is more than one page. */
  function GetTextualData(pages: seq<seq<(string, Entry)>>): (r: seq<(string, string)>)
    ensures forall k, t :: (k, t) in r <==>
      exists i :: 0 <= i < |pages| && (k, t) in PageTexts(|pages|, i, pages[i])
    ensures forall k, t :: (k, t) in r ==> t != ""
  {
    PagesTexts(|pages|, pages)
  }

  /** `_extract_field_name`: drops a `page…_` prefix. */
  function ExtractFieldName(key: string): (r: string)
    ensures |r| <= |key|
    ensures !('_' in key && StartsWith(key, "page")) ==> r == key
  {
    if '_' in key && StartsWith(key, "page") then AfterFirst(key, '_') else key
  }

  /** The part of `s` after the first occurrence of `c` (`split(c, 1)[1]`). */
  function AfterFirst(s: string, c: char): (r: string)
    requires c in s
    ensures |r| < |s|
    ensures r == s[|s| - |r|..]
  {
    if s[0] == c then s[1..]
    else
      assert c in s[1..];
      AfterFirst(s[1..], c)
  }

  /** Splitting at the first `c` of `p + [c] + rest`, where `p` has no `c`,
      gives `rest`. */
  lemma {:induction false} AfterFirstOfPrefix(p: string, c: char, rest: string)
    requires c !in p
    ensures AfterFirst(p + [c] + rest, c) == rest
  {
    var s := p + [c] + rest;
    if |p| > 0 {
      assert s[0] == p[0];
      assert s[1..] == p[1..] + [c] + rest;
      AfterFirstOfPrefix(p[1..], c, rest);
    } else {
      assert s[1..] == rest;
    }
  }

  /** The key built for a page field gives the field name back. A
      single-page key is the field name itself, so this holds there unless
      the field name itself looks like a page key. */
  lemma ExtractFieldNameOfKey(pageCount: nat, page: nat, field: string)
    requires pageCount <= 1 ==> !('_' in field && StartsWith(field, "page"))
    ensures ExtractFieldName(SemanticAssignment.FieldKey(pageCount, page, field)) == field
  {
    if pageCount > 1 {
      var p := "page" + NatToString(page);
      var key := p + "_" + field;
      assert key == p + ['_'] + field;
      assert '_' !in p by {
        forall k | 0 <= k < |p| ensures p[k] != '_' {
          if k >= 4 { assert p[k] == NatToString(page)[k - 4]; }
        }
      }
      assert key[|p|] == '_';
      assert StartsWith(key, "page") by { assert key[..4] == "page"; }
      AfterFirstOfPrefix(p, '_', field);
    }
  }

  // ---------------------------------------------------------------------------
  // Scores of one text
  // ---------------------------------------------------------------------------

  /** `t` has the digit shape `shape`, where '#' stands for one ASCII digit. */
  predicate FitsShape(t: string, shape: string)
  {
    |t| == |shape| && forall i :: 0 <= i < |shape| ==> (if shape[i] == '#' then IsDigit(t[i]) else t[i] == shape[i])
  }

  const DateShapes: seq<string> := ["##/##/####", "##-##-####", "####-##-##"]

  /** `re.match` of the anchored date patterns; `$` also matches before a
      final newline. */
  predicate IsDateShaped(t: string)
  {
    exists shape :: shape in DateShapes &&
      (FitsShape(t, shape) || (|t| > 0 && t[|t| - 1] == '\n' && FitsShape(t[..|t| - 1], shape)))
  }

  /** `_date_score`: 1 for a full date shape, 0.5 when only some digit is
      present, 0 without digits. */
  function DateScore(t: string): (r: real)
    ensures r == 1.0 <==> IsDateShaped(t)
    ensures r == 0.5 <==> !IsDateShaped(t) && CountDigits(t) > 0
    ensures r == 0.0 <==> CountDigits(t) == 0
  {
    if IsDateShaped(t) then
      var shape :| shape in DateShapes &&
        (FitsShape(t, shape) || (|t| > 0 && t[|t| - 1] == '\n' && FitsShape(t[..|t| - 1], shape)));
      assert IsDigit(t[0]) by {
        if !FitsShape(t, shape) { assert t[..|t| - 1][0] == t[0]; }
      }
      1.0
    else if CountDigits(t) > 0 then 0.5
    else 0.0
  }

  /** The ASCII digits of `t`, in order (`re.sub(r"[^\d]", "", t)`). */
  function Digits(t: string): (r: string)
    ensures |r| == CountDigits(t)
    ensures forall i :: 0 <= i < |r| ==> IsDigit(r[i])
  {
    if |t| == 0 then ""
    else Digits(t[..|t| - 1]) + (if IsDigit(t[|t| - 1]) then [t[|t| - 1]] else "")
  }

  lemma {:induction false} CountDigitsOfDigits(d: string)
    requires forall i :: 0 <= i < |d| ==> IsDigit(d[i])
    ensures CountDigits(d) == |d|
  {
    if |d| > 0 {
      CountDigitsOfDigits(d[..|d| - 1]);
    }
  }

  /** `_id_score` by digit count: none 0, 7–12 digits 1, 5–20 digits 0.6,
      any other count 0.3. */
  function IdScore(t: string): (r: real)
    ensures CountDigits(t) == 0 <==> r == 0.0
    ensures 7 <= CountDigits(t) <= 12 <==> r == 1.0
    ensures r == 0.6 <==> (5 <= CountDigits(t) < 7 || 12 < CountDigits(t) <= 20)
    ensures r == 0.3 <==> (0 < CountDigits(t) < 5 || CountDigits(t) > 20)
  {
    var n := CountDigits(t);
    if n == 0 then 0.0
    else if 7 <= n <= 12 then 1.0
    else if 5 <= n <= 20 then 0.6
    else 0.3
  }

  /** The ID score sees only the digits: separators and letters around them
      do not change it. */
  lemma IdScoreOnlyDigits(t: string)
    ensures IdScore(t) == IdScore(Digits(t))
  {
    CountDigitsOfDigits(Digits(t));
  }

  /** The letters `_name_score` accepts: ASCII letters and the Spanish
      accented letters. */
  predicate NameLetter(c: char)
  {
    IsUpperAscii(c) || IsLowerAscii(c) || c in "ÁÉÍÓÚáéíóúÑñÜü"
  }

  function CountNameLetters(t: string): (n: nat)
    ensures n <= |t|
    ensures n == |t| <==> forall i :: 0 <= i < |t| ==> NameLetter(t[i])
  {
    if |t| == 0 then 0
    else
      var n := CountNameLetters(t[..|t| - 1]) + (if NameLetter(t[|t| - 1]) then 1 else 0);
      assert forall i :: 0 <= i < |t| - 1 ==> t[..|t| - 1][i] == t[i];
      n
  }

  /** Characters other than the plain space (`len(t.replace(" ", ""))`). */
  function CountNonSpace(t: string): (n: nat)
    ensures n <= |t|
  {
    if |t| == 0 then 0 else CountNonSpace(t[..|t| - 1]) + (if t[|t| - 1] != ' ' then 1 else 0)
  }

  function NameRatio(t: string): real
  {
    (CountNameLetters(t) as real) / (MaxInt(1, |t|) as real)
  }

  /** `_name_score`: 1 when more than 90% of the characters are letters and
      at least three are not spaces, 0.6 above 70% letters, else 0.2. */
  function NameScore(t: string): (r: real)
    ensures r == 1.0 || r == 0.6 || r == 0.2
    ensures r == 1.0 <==> NameRatio(t) > 0.9 && CountNonSpace(t) >= 3
    ensures r == 0.2 <==> NameRatio(t) <= 0.7
  {
    var ratio := NameRatio(t);
    if ratio > 0.9 && CountNonSpace(t) >= 3 then 1.0
    else if ratio > 0.7 then 0.6
    else 0.2
  }

  lemma {:induction false} CountNonSpaceOfLetters(t: string)
    requires forall i :: 0 <= i < |t| ==> NameLetter(t[i])
    ensures CountNonSpace(t) == |t|
  {
    if |t| > 0 {
      CountNonSpaceOfLetters(t[..|t| - 1]);
    }
  }

  /** A text of three or more letters and nothing else is a perfect name. */
  lemma LettersOnlyIsPerfectName(t: string)
    requires |t| >= 3
    requires forall i :: 0 <= i < |t| ==> NameLetter(t[i])
    ensures NameScore(t) == 1.0
  {
    CountNonSpaceOfLetters(t);
    var n := CountNameLetters(t);
    assert n == |t| && MaxInt(1, |t|) == |t|;
    assert NameRatio(t) == (n as real) / (n as real) == 1.0;
  }

  /** The inclusive ideal length range of a field. */
  datatype Range = Range(lo: nat, hi: nat)

  /** `_length_score`: 1 inside the ideal range, otherwise reduced by the
      distance to the nearer bound relative to the upper bound, never below
      0. */
  function LengthScore(len: nat, ideal: Range): (r: real)
    requires ideal.lo <= ideal.hi && 0 < ideal.hi
    ensures 0.0 <= r <= 1.0
    ensures r == 1.0 <==> ideal.lo <= len <= ideal.hi
    ensures !(ideal.lo <= len <= ideal.hi) ==>
      r == MaxReal(0.0, 1.0 - (MinInt(Abs(len - ideal.lo), Abs(len - ideal.hi)) as real) / (ideal.hi as real))
  {
    if ideal.lo <= len <= ideal.hi then 1.0
    else
      var dist := MinInt(Abs(len - ideal.lo), Abs(len - ideal.hi));
      var top := ideal.hi as real;
      assert dist > 0;
      assert (dist as real) / top > 0.0;
      MaxReal(0.0, 1.0 - (dist as real) / top)
  }

  function Abs(x: int): nat { if x < 0 then -x else x }

  // ---------------------------------------------------------------------------
  // Field categories
  // ---------------------------------------------------------------------------

  datatype Category = DateField | IdField | NameField | OtherField

  const IdKeywords: seq<string> := ["documento", "id", "nuip", "cedula", "dni"]
  const IdLengthKeywords: seq<string> := ["documento", "id", "nuip"]
  const NameKeywords: seq<string> := ["nombre", "apellido"]

  /** The format category as the scorer dispatches it: date, then ID, then
      name. A surname field ("apellido") contains "id" and lands in the ID
      branch. */
  function FormatCategory(name: string): (r: Category)
    ensures Contains(name, "fecha") <==> r == DateField
    ensures r == IdField <==> !Contains(name, "fecha") && FirstContained(name, IdKeywords)
  {
    if Contains(name, "fecha") then DateField
    else if FirstContained(name, IdKeywords) then IdField
    else if FirstContained(name, NameKeywords) then NameField
    else OtherField
  }

  /** The ideal length range as the scorer dispatches it. */
  function LengthRange(name: string): (r: Range)
    ensures r.lo <= r.hi && 0 < r.hi
  {
    if Contains(name, "fecha") then Range(8, 12)
    else if FirstContained(name, IdLengthKeywords) then Range(5, 20)
    else if FirstContained(name, NameKeywords) then Range(2, 50)
    else Range(1, 100)
  }

  /** The dispatch corrected: name fields are recognised before the ID
      keywords, so a surname is scored as a name. */
  function FormatCategoryFixed(name: string): (r: Category)
    ensures Contains(name, "fecha") <==> r == DateField
    ensures r == NameField <==> !Contains(name, "fecha") && FirstContained(name, NameKeywords)
  {
    if Contains(name, "fecha") then DateField
    else if FirstContained(name, NameKeywords) then NameField
    else if FirstContained(name, IdKeywords) then IdField
    else OtherField
  }

  function LengthRangeFixed(name: string): (r: Range)
    ensures r.lo <= r.hi && 0 < r.hi
  {
    if Contains(name, "fecha") then Range(8, 12)
    else if FirstContained(name, NameKeywords) then Range(2, 50)
    else if FirstContained(name, IdLengthKeywords) then Range(5, 20)
    else Range(1, 100)
  }

  /** Every surname field without "fecha" is dispatched as an ID as
      written, and as a name by the corrected dispatch. */
  lemma SurnameDispatch(name: string)
    requires Contains(name, "apellido") && !Contains(name, "fecha")
    ensures FormatCategory(name) == IdField
    ensures LengthRange(name) == Range(5, 20)
    ensures FormatCategoryFixed(name) == NameField
    ensures LengthRangeFixed(name) == Range(2, 50)
  {
    assert "apellido" in NameKeywords;
    ContainsAt(name, "apellido");
    var i :| 0 <= i <= |name| - 8 && StartsWith(name[i..], "apellido");
    assert name[i..][..8] == "apellido";
    assert name[i + 5] == 'i' && name[i + 6] == 'd';
    assert name[i + 5..][..2] == "id";
    assert StartsWith(name[i + 5..], "id");
    ContainsAt(name, "id");
    assert "id" in IdKeywords && "id" in IdLengthKeywords;
  }

  function FormatScore(cat: Category, text: string): (r: real)
    ensures 0.0 <= r <= 1.0
  {
    match cat
    case DateField => DateScore(text)
    case IdField => IdScore(text)
    case NameField => NameScore(text)
    case OtherField => 1.0
  }

  /** Score of one text: 0 for blank text, otherwise
      0.8·format + 0.2·length, always within [0, 1]. */
  function ScoreText(cat: Category, ideal: Range, raw: string): (r: real)
    requires ideal.lo <= ideal.hi && 0 < ideal.hi
    ensures 0.0 <= r <= 1.0
    ensures Trim(raw) == "" ==> r == 0.0
    ensures Trim(raw) != "" && cat == OtherField && ideal.lo <= |Trim(raw)| <= ideal.hi ==> r == 1.0
  {
    var text := Trim(raw);
    if text == "" then 0.0
    else
      var f := FormatScore(cat, text);
      var l := LengthScore(|text|, ideal);
      assert 0.0 <= f <= 1.0 && 0.0 <= l <= 1.0;
      0.8 * f + 0.2 * l
  }

  /** One field of `validate_textual_data`: the field name is the key with
      a `page…_` prefix dropped (everything after the first `_` of a key
      that starts with "page"), lower-cased, and picks the category. */
  function FieldScore(key: string, raw: string): (r: real)
    ensures 0.0 <= r <= 1.0
    ensures Trim(raw) == "" ==> r == 0.0
  {
    var name := Lower(ExtractFieldName(key));
    ScoreText(FormatCategory(name), LengthRange(name), raw)
  }

  /** One field of `validate_textual_data` with the dispatch corrected. */
  function FieldScoreFixed(key: string, raw: string): (r: real)
    ensures 0.0 <= r <= 1.0
    ensures Trim(raw) == "" ==> r == 0.0
  {
    var name := Lower(ExtractFieldName(key));
    ScoreText(FormatCategoryFixed(name), LengthRangeFixed(name), raw)
  }

  /** A correct surname is scored 0.2 as written (no digits for the ID
      format score) and 1.0 with the corrected dispatch. */
  lemma SurnameCounterexample()
    ensures FieldScore("apellido", "GOMEZ") == 0.2
    ensures FieldScoreFixed("apellido", "GOMEZ") == 1.0
  {
    SurnameName();
    GomezText();
    assert LengthScore(5, Range(5, 20)) == 1.0;
    assert LengthScore(5, Range(2, 50)) == 1.0;
  }

  lemma SurnameName()
    ensures Lower(ExtractFieldName("apellido")) == "apellido"
    ensures FormatCategory("apellido") == IdField && LengthRange("apellido") == Range(5, 20)
    ensures FormatCategoryFixed("apellido") == NameField && LengthRangeFixed("apellido") == Range(2, 50)
  {
    assert ExtractFieldName("apellido") == "apellido" by { assert '_' !in "apellido"; }
    LowerOfLowercase("apellido");
    assert Contains("apellido", "apellido") by { assert StartsWith("apellido", "apellido"); }
    NotContainsMissingChar("apellido", "fecha", 'f');
    SurnameDispatch("apellido");
  }

  lemma GomezText()
    ensures Trim("GOMEZ") == "GOMEZ"
    ensures IdScore("GOMEZ") == 0.0
    ensures NameScore("GOMEZ") == 1.0
  {
    assert !IsSpace('G') && !IsSpace('Z');
    assert Trim("GOMEZ") == "GOMEZ";
    assert forall i :: 0 <= i < 5 ==> !IsDigit("GOMEZ"[i]);
    LettersOnlyIsPerfectName("GOMEZ");
  }

  function FieldScores(data: seq<(string, string)>): (r: seq<real>)
    ensures |r| == |data|
    ensures forall i :: 0 <= i < |data| ==> r[i] == FieldScore(data[i].0, data[i].1)
  {
    seq(|data|, i requires 0 <= i < |data| => FieldScore(data[i].0, data[i].1))
  }

  /** `validate_textual_data`: the mean field score, 0 without fields,
      within [0, 1]. */
  function ValidateTextualData(data: seq<(string, string)>): (r: real)
    ensures 0.0 <= r <= 1.0
    ensures |data| == 0 ==> r == 0.0
    ensures r == Mean(FieldScores(data))
  {
    MeanBounds(FieldScores(data), 0.0, 1.0);
    Mean(FieldScores(data))
  }
}
