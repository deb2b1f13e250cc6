/** The converter between spreadsheet cells and Boolean/boolean fields
    (org.mygreen.xlsmapper.cellconvert.converter.BooleanCellConverter).

    Reading: a native boolean cell gives its own flag; any other cell has its
    text trimmed, replaced by the configured default when empty, and matched
    against the annotation's true synonyms, then its false synonyms.
    Text that is not empty and matches nothing is a type-bind error that lists
    the accepted synonyms. Writing: the field's value (or, when it is null, the
    converted default text) is written as the annotation's literal for true or
    false, and a null value blanks the cell. */
module BooleanCellConverter {
  import opened Wrappers

  /** A cell as this converter sees it: a native boolean, text, or empty. */
  datatype Cell = BoolCell(flag: bool) | TextCell(text: string) | Blank

  /** The attributes of the boolean-converter annotation. */
  datatype BooleanAnno = BooleanAnno(
    loadForTrue: seq<string>,
    loadForFalse: seq<string>,
    ignoreCase: bool,
    failToFalse: bool,
    saveAsTrue: string,
    saveAsFalse: string)

  /** The configuration used when the field carries no boolean-converter
      annotation: case is ignored, unmatched text is not forced to FALSE, each
      literal it writes is read back as the value it stands for, and the
      literals are the standard "true"/"false". */
  function DefaultBooleanConverterAnnotation(): (a: BooleanAnno)
    ensures a.ignoreCase && !a.failToFalse
    ensures MatchesAny(a.saveAsTrue, a.loadForTrue, a.ignoreCase)
    ensures MatchesAny(a.saveAsFalse, a.loadForFalse, a.ignoreCase)
    ensures !MatchesAny(a.saveAsFalse, a.loadForTrue, a.ignoreCase)
    ensures a.saveAsTrue == "true" && a.saveAsFalse == "false"
    ensures EqualsIgnoreCase(a.saveAsTrue, "true") && EqualsIgnoreCase(a.saveAsFalse, "false")
  {
    var trueValues := ["true", "1", "yes", "on", "y", "t"];
    var falseValues := ["false", "0", "no", "off", "f", "n"];
    assert Fold("true") == "true" && Fold("false") == "false";
    assert Matches("true", trueValues[0], true) && Matches("false", falseValues[0], true);
    assert forall i | 0 <= i < |trueValues| :: |Fold(trueValues[i])| != |Fold("false")|;
    BooleanAnno(trueValues, falseValues, true, false, "true", "false")
  }

  /** The field's own annotation, or the default one when it has none
      (the same rule applies when loading and when saving). */
  function EffectiveAnnotation(fieldAnno: Option<BooleanAnno>): (a: BooleanAnno)
    ensures fieldAnno.Some? ==> a == fieldAnno.value
    ensures fieldAnno.None? ==> a == DefaultBooleanConverterAnnotation()
  {
    if fieldAnno.Some? then fieldAnno.value else DefaultBooleanConverterAnnotation()
  }

  // ---------------------------------------------------------------------------
  // Case-insensitive comparison

  /** The per-character fold that case-insensitive comparison applies:
      upper-case ASCII letters become lower case, every other character is kept. */
  function FoldChar(c: char): char
  {
    if 'A' <= c <= 'Z' then (c as int - 'A' as int + 'a' as int) as char else c
  }

  function Fold(s: string): (r: string)
    ensures |r| == |s|
    ensures forall i :: 0 <= i < |s| ==> r[i] == FoldChar(s[i])
  {
    seq(|s|, i requires 0 <= i < |s| => FoldChar(s[i]))
  }

  /** String comparison ignoring case: equality after folding every character. */
  predicate EqualsIgnoreCase(a: string, b: string)
  {
    Fold(a) == Fold(b)
  }

  /** Whether `value` matches one synonym, ignoring case or exactly. */
  predicate Matches(value: string, synonym: string, ignoreCase: bool)
  {
    if ignoreCase then EqualsIgnoreCase(value, synonym) else value == synonym
  }

  predicate MatchesAny(value: string, synonyms: seq<string>, ignoreCase: bool)
  {
    exists i | 0 <= i < |synonyms| :: Matches(value, synonyms[i], ignoreCase)
  }

  // ---------------------------------------------------------------------------
  // Text to boolean

  /** What the text converts to: TRUE if it matches a true synonym (checked
      first), else FALSE if it matches a false synonym, else FALSE when
      `failToFalse` is set, else null. */
  function Converted(value: string, anno: BooleanAnno): (r: Option<bool>)
    ensures r == Some(true) <==> MatchesAny(value, anno.loadForTrue, anno.ignoreCase)
    ensures r == Some(false) <==>
      !MatchesAny(value, anno.loadForTrue, anno.ignoreCase)
      && (MatchesAny(value, anno.loadForFalse, anno.ignoreCase) || anno.failToFalse)
    ensures r.None? <==>
      !MatchesAny(value, anno.loadForTrue, anno.ignoreCase)
      && !MatchesAny(value, anno.loadForFalse, anno.ignoreCase) && !anno.failToFalse
  {
    if MatchesAny(value, anno.loadForTrue, anno.ignoreCase) then Some(true)
    else if MatchesAny(value, anno.loadForFalse, anno.ignoreCase) then Some(false)
    else if anno.failToFalse then Some(false)
    else None
  }

  /** The synonym search, true list first, each loop returning on the first match. */
  method ConvertFromString(value: string, anno: BooleanAnno) returns (r: Option<bool>)
    ensures r == Converted(value, anno)
  {
    for i := 0 to |anno.loadForTrue|
      invariant forall k :: 0 <= k < i ==> !Matches(value, anno.loadForTrue[k], anno.ignoreCase)
    {
      var trueValue := anno.loadForTrue[i];
      if anno.ignoreCase && EqualsIgnoreCase(value, trueValue) {
        return Some(true);
      } else if !anno.ignoreCase && value == trueValue {
        return Some(true);
      }
    }
    for j := 0 to |anno.loadForFalse|
      invariant forall k :: 0 <= k < j ==> !Matches(value, anno.loadForFalse[k], anno.ignoreCase)
    {
      var falseValue := anno.loadForFalse[j];
      if anno.ignoreCase && EqualsIgnoreCase(value, falseValue) {
        return Some(false);
      } else if !anno.ignoreCase && value == falseValue {
        return Some(false);
      }
    }
    if anno.failToFalse {
      return Some(false);
    }
    return None;
  }

  /** Text in both synonym lists converts to TRUE. */
  lemma TrueSynonymsWin(value: string, anno: BooleanAnno)
    requires MatchesAny(value, anno.loadForTrue, anno.ignoreCase)
    requires MatchesAny(value, anno.loadForFalse, anno.ignoreCase)
    ensures Converted(value, anno) == Some(true)
  {
  }

  /** With `failToFalse`, the conversion never yields null. */
  lemma FailToFalseNeverNull(value: string, anno: BooleanAnno)
    requires anno.failToFalse
    ensures Converted(value, anno).Some?
    ensures Converted(value, anno) == Some(true) <==> MatchesAny(value, anno.loadForTrue, anno.ignoreCase)
  {
  }

  /** With `ignoreCase`, texts that differ only in the case of their letters
      convert alike. */
  lemma {:induction false} IgnoreCaseConvertsCaseVariantsAlike(v: string, w: string, anno: BooleanAnno)
    requires anno.ignoreCase
    requires EqualsIgnoreCase(v, w)
    ensures Converted(v, anno) == Converted(w, anno)
  {
    assert forall s :: Matches(v, s, true) <==> Matches(w, s, true);
  }

  lemma FoldIdempotent(s: string)
    ensures Fold(Fold(s)) == Fold(s)
  {
  }

  /** With `ignoreCase`, a text matches a synonym exactly when its folded
      (lower-case) spelling does. */
  lemma IgnoreCaseMatchesFoldedText(v: string, anno: BooleanAnno)
    requires anno.ignoreCase
    ensures Converted(v, anno) == Converted(Fold(v), anno)
  {
    FoldIdempotent(v);
    IgnoreCaseConvertsCaseVariantsAlike(v, Fold(v), anno);
  }

  /** Without `ignoreCase`, matching is plain membership of the exact text. */
  lemma ExactMatchWithoutIgnoreCase(v: string, anno: BooleanAnno)
    requires !anno.ignoreCase
    ensures Converted(v, anno) == Some(true) <==> v in anno.loadForTrue
    ensures Converted(v, anno) == Some(false) <==>
              v !in anno.loadForTrue && (v in anno.loadForFalse || anno.failToFalse)
  {
    assert MatchesAny(v, anno.loadForTrue, false) <==> v in anno.loadForTrue by {
      if v in anno.loadForTrue {
        var i :| 0 <= i < |anno.loadForTrue| && anno.loadForTrue[i] == v;
        assert Matches(v, anno.loadForTrue[i], false);
      }
    }
    assert MatchesAny(v, anno.loadForFalse, false) <==> v in anno.loadForFalse by {
      if v in anno.loadForFalse {
        var i :| 0 <= i < |anno.loadForFalse| && anno.loadForFalse[i] == v;
        assert Matches(v, anno.loadForFalse[i], false);
      }
    }
  }

  // ---------------------------------------------------------------------------
  // Candidate values for the error message

  /** The elements of `s` in order with every repeat of an earlier element
      dropped: what adding them one by one to an insertion-ordered set keeps. */
  function Firsts(s: seq<string>): seq<string>
    decreases |s|
  {
    if s == [] then []
    else
      var p, x := s[..|s| - 1], s[|s| - 1];
      Firsts(p) + (if x in p then [] else [x])
  }

  lemma {:induction false} FirstsElements(s: seq<string>)
    ensures forall x :: x in Firsts(s) <==> x in s
    decreases |s|
  {
    if s != [] {
      var p, x := s[..|s| - 1], s[|s| - 1];
      FirstsElements(p);
      assert s == p + [x];
    }
  }

  lemma FirstsSnoc(p: seq<string>, x: string)
    ensures Firsts(p + [x]) == Firsts(p) + (if x in Firsts(p) then [] else [x])
  {
    FirstsElements(p);
    assert (p + [x])[..|p|] == p;
  }

  /** The candidate list holds no value twice. */
  lemma {:induction false} FirstsDistinct(s: seq<string>)
    ensures forall i, j :: 0 <= i < j < |Firsts(s)| ==> Firsts(s)[i] != Firsts(s)[j]
    decreases |s|
  {
    if s != [] {
      var p, x := s[..|s| - 1], s[|s| - 1];
      assert s == p + [x];
      FirstsDistinct(p);
      FirstsSnoc(p, x);
    }
  }

  /** The de-duplicated values of `a` come first, unchanged, in those of `a + b`. */
  lemma {:induction false} FirstsPrefix(a: seq<string>, b: seq<string>)
    ensures |Firsts(a)| <= |Firsts(a + b)|
    ensures Firsts(a + b)[..|Firsts(a)|] == Firsts(a)
    decreases |b|
  {
    if b == [] {
      assert a + b == a;
    } else {
      var b', y := b[..|b| - 1], b[|b| - 1];
      assert a + b == (a + b') + [y];
      FirstsPrefix(a, b');
      FirstsSnoc(a + b', y);
    }
  }

  /** A list without repeats is kept as it is. */
  lemma {:induction false} FirstsOfDistinct(s: seq<string>)
    requires forall i, j :: 0 <= i < j < |s| ==> s[i] != s[j]
    ensures Firsts(s) == s
    decreases |s|
  {
    if s != [] {
      var p, x := s[..|s| - 1], s[|s| - 1];
      FirstsOfDistinct(p);
      assert forall i :: 0 <= i < |p| ==> p[i] == s[i] != x;
    }
  }

  /** Adds every element of `xs` to the insertion-ordered set `values`, as
      `LinkedHashSet.addAll` does. */
  method AddAll(values: seq<string>, ghost added: seq<string>, xs: seq<string>) returns (r: seq<string>)
    requires values == Firsts(added)
    ensures r == Firsts(added + xs)
  {
    r := values;
    assert added + xs[..0] == added;
    for i := 0 to |xs|
      invariant r == Firsts(added + xs[..i])
    {
      assert added + xs[..i + 1] == (added + xs[..i]) + [xs[i]];
      FirstsSnoc(added + xs[..i], xs[i]);
      if xs[i] !in r {
        r := r + [xs[i]];
      }
    }
    assert xs[..|xs|] == xs;
  }

  /** The values accepted on loading: the true synonyms then the false
      synonyms, each value once, at its first position. */
  method LoadingAvailableValues(anno: BooleanAnno) returns (values: seq<string>)
    ensures values == Firsts(anno.loadForTrue + anno.loadForFalse)
  {
    assert [] + anno.loadForTrue == anno.loadForTrue;
    values := AddAll([], [], anno.loadForTrue);
    values := AddAll(values, anno.loadForTrue, anno.loadForFalse);
  }

  /** The candidate list starts with the distinct true synonyms, has no
      repeats, and holds exactly the values of both lists. */
  lemma CandidateValuesProperties(anno: BooleanAnno)
    ensures var c := Firsts(anno.loadForTrue + anno.loadForFalse);
      && |Firsts(anno.loadForTrue)| <= |c|
      && c[..|Firsts(anno.loadForTrue)|] == Firsts(anno.loadForTrue)
      && (forall i, j :: 0 <= i < j < |c| ==> c[i] != c[j])
      && (forall x :: x in c <==> x in anno.loadForTrue || x in anno.loadForFalse)
  {
    FirstsPrefix(anno.loadForTrue, anno.loadForFalse);
    FirstsDistinct(anno.loadForTrue + anno.loadForFalse);
    FirstsElements(anno.loadForTrue + anno.loadForFalse);
  }

  // ---------------------------------------------------------------------------
  // Loading a cell

  /** The outcome of loading: a value (null included), or a type-bind error
      carrying the offending text and the accepted values in order. */
  datatype LoadResult = Loaded(value: Option<bool>) | TypeBindError(cellValue: string, candidateValues: seq<string>)

  /** The text the cell formatter renders; an empty cell renders as "". */
  function Contents(cell: Cell): string
  {
    match cell
    case TextCell(t) => t
    case _ => ""
  }

  /** The text that is converted: the cell's text trimmed, then replaced by the
      default when empty. `trim` and `defaultIfEmpty` are the configured
      trimming and default substitution. */
  function EffectiveText(cell: Cell, trim: string -> string, defaultIfEmpty: string -> string): (t: string)
    ensures cell.TextCell? ==> t == defaultIfEmpty(trim(cell.text))
    ensures !cell.TextCell? ==> t == defaultIfEmpty(trim(""))
  {
    defaultIfEmpty(trim(Contents(cell)))
  }

  function ToObject(cell: Cell, fieldAnno: Option<BooleanAnno>, trim: string -> string,
                    defaultIfEmpty: string -> string, primitiveTarget: bool): (r: LoadResult)
    // a native boolean cell gives its own flag
    ensures cell.BoolCell? ==> r == Loaded(Some(cell.flag))
    // an error exactly for non-empty text that matches no synonym, without failToFalse
    ensures var a, text := EffectiveAnnotation(fieldAnno), EffectiveText(cell, trim, defaultIfEmpty);
      r.TypeBindError? <==>
        && !cell.BoolCell? && text != "" && !a.failToFalse
        && !MatchesAny(text, a.loadForTrue, a.ignoreCase)
        && !MatchesAny(text, a.loadForFalse, a.ignoreCase)
    ensures var a, text := EffectiveAnnotation(fieldAnno), EffectiveText(cell, trim, defaultIfEmpty);
      r.TypeBindError? ==>
        r.cellValue == text && r.candidateValues == Firsts(a.loadForTrue + a.loadForFalse)
    // TRUE exactly for a native true or text matching a true synonym
    ensures var a, text := EffectiveAnnotation(fieldAnno), EffectiveText(cell, trim, defaultIfEmpty);
      r == Loaded(Some(true)) <==>
        cell == BoolCell(true) || (!cell.BoolCell? && MatchesAny(text, a.loadForTrue, a.ignoreCase))
    // null only for unmatched empty text without failToFalse on a wrapper type
    ensures var a, text := EffectiveAnnotation(fieldAnno), EffectiveText(cell, trim, defaultIfEmpty);
      r == Loaded(None) <==>
        && !cell.BoolCell? && text == "" && !a.failToFalse && !primitiveTarget
        && !MatchesAny(text, a.loadForTrue, a.ignoreCase)
        && !MatchesAny(text, a.loadForFalse, a.ignoreCase)
  {
    var anno := EffectiveAnnotation(fieldAnno);
    if cell.BoolCell? then Loaded(Some(cell.flag))
    else
      var cellValue := EffectiveText(cell, trim, defaultIfEmpty);
      var result := Converted(cellValue, anno);
      if result.None? && cellValue != "" then
        TypeBindError(cellValue, Firsts(anno.loadForTrue + anno.loadForFalse))
      else if result.Some? then Loaded(result)
      else if anno.failToFalse then Loaded(Some(false))
      else if primitiveTarget then Loaded(Some(false))
      else Loaded(None)
  }

  /** Empty text that matches no synonym falls back, in order, to FALSE when
      `failToFalse` is set, to FALSE for a primitive target, else to null. */
  lemma EmptyTextFallback(cell: Cell, fieldAnno: Option<BooleanAnno>, trim: string -> string,
                          defaultIfEmpty: string -> string, primitiveTarget: bool)
    requires !cell.BoolCell? && EffectiveText(cell, trim, defaultIfEmpty) == ""
    requires var a := EffectiveAnnotation(fieldAnno);
      !MatchesAny("", a.loadForTrue, a.ignoreCase) && !MatchesAny("", a.loadForFalse, a.ignoreCase)
    ensures ToObject(cell, fieldAnno, trim, defaultIfEmpty, primitiveTarget) ==
      if EffectiveAnnotation(fieldAnno).failToFalse then Loaded(Some(false))
      else if primitiveTarget then Loaded(Some(false))
      else Loaded(None)
  {
  }

  /** The native boolean value does not depend on trimming or the default. */
  lemma NativeBooleanBypassesText(b: bool, fieldAnno: Option<BooleanAnno>,
                                  trim1: string -> string, default1: string -> string,
                                  trim2: string -> string, default2: string -> string, primitiveTarget: bool)
    ensures ToObject(BoolCell(b), fieldAnno, trim1, default1, primitiveTarget)
         == ToObject(BoolCell(b), fieldAnno, trim2, default2, !primitiveTarget)
  {
  }

  /** With the default configuration, synonyms match regardless of case. */
  lemma DefaultAnnotationReadsSynonyms()
    ensures var id := (s: string) => s;
      && ToObject(TextCell("YES"), None, id, id, false) == Loaded(Some(true))
      && ToObject(TextCell("Off"), None, id, id, false) == Loaded(Some(false))
  {
    var a := DefaultBooleanConverterAnnotation();
    assert Fold("YES") == "yes";
    assert Matches("YES", a.loadForTrue[2], true);
    assert Fold("Off") == "off";
    assert Matches("Off", a.loadForFalse[3], true);
    assert !MatchesAny("Off", a.loadForTrue, true) by {
      assert Fold("Off")[0] == 'o';
      forall i | 0 <= i < |a.loadForTrue| ensures !EqualsIgnoreCase("Off", a.loadForTrue[i]) {
        assert Fold(a.loadForTrue[i])[0] != 'o' || |a.loadForTrue[i]| != 3;
      }
    }
  }

  /** With the default configuration, a blank cell is null for a wrapper
      target and FALSE for a primitive one. */
  lemma DefaultAnnotationReadsBlank()
    ensures var id := (s: string) => s;
      && ToObject(Blank, None, id, id, false) == Loaded(None)
      && ToObject(Blank, None, id, id, true) == Loaded(Some(false))
  {
    var a := DefaultBooleanConverterAnnotation();
    assert forall i | 0 <= i < |a.loadForTrue| :: |a.loadForTrue[i]| > 0;
    assert forall i | 0 <= i < |a.loadForFalse| :: |a.loadForFalse[i]| > 0;
  }

  /** With the default configuration, unknown text is an error listing the
      twelve synonyms, true ones first. */
  lemma DefaultAnnotationRejectsUnknownText()
    ensures var id := (s: string) => s;
      ToObject(TextCell("maybe"), None, id, id, true) ==
        TypeBindError("maybe", ["true", "1", "yes", "on", "y", "t", "false", "0", "no", "off", "f", "n"])
  {
    var a := DefaultBooleanConverterAnnotation();
    var all := a.loadForTrue + a.loadForFalse;
    assert Fold("maybe")[0] == 'm';
    forall i | 0 <= i < |all| ensures !EqualsIgnoreCase("maybe", all[i]) {
      assert Fold(all[i])[0] != 'm';
    }
    assert !MatchesAny("maybe", a.loadForTrue, true) by {
      forall i | 0 <= i < |a.loadForTrue| ensures !EqualsIgnoreCase("maybe", a.loadForTrue[i]) {
        assert a.loadForTrue[i] == all[i];
      }
    }
    assert !MatchesAny("maybe", a.loadForFalse, true) by {
      forall i | 0 <= i < |a.loadForFalse| ensures !EqualsIgnoreCase("maybe", a.loadForFalse[i]) {
        assert a.loadForFalse[i] == all[6 + i];
      }
    }
    FirstsOfDistinct(all);
  }

  // ---------------------------------------------------------------------------
  // Saving a cell

  /** The value written: the field's value, or, when it is null and a default
      text is configured, the conversion of that text. */
  function SavedValue(value: Option<bool>, defaultValue: Option<string>, anno: BooleanAnno): (v: Option<bool>)
    ensures value.Some? ==> v == value
    ensures value.None? && defaultValue.None? ==> v.None?
    ensures value.None? && defaultValue.Some? ==> v == Converted(defaultValue.value, anno)
  {
    if value.None? && defaultValue.Some? then Converted(defaultValue.value, anno) else value
  }

  /** The content written, as the code checks it: the native-boolean branch asks
      that `saveAsTrue` equal both "true" and "false" ignoring case. */
  function SavedContentAsWritten(v: Option<bool>, template: Cell, anno: BooleanAnno): (c: Cell)
    ensures c.Blank? <==> v.None?
    ensures v.Some? && !template.BoolCell? ==> c == TextCell(if v.value then anno.saveAsTrue else anno.saveAsFalse)
  {
    match v
    case Some(b) =>
      if EqualsIgnoreCase(anno.saveAsTrue, "true") && EqualsIgnoreCase(anno.saveAsTrue, "false")
         && template.BoolCell? then BoolCell(b)
      else if b then TextCell(anno.saveAsTrue)
      else TextCell(anno.saveAsFalse)
    case None => Blank
  }

  /** The content written, with the native-boolean branch as intended: a boolean
      template cell keeps a native value when the literals are "true"/"false". */
  function SavedContent(v: Option<bool>, template: Cell, anno: BooleanAnno): (c: Cell)
    ensures c.Blank? <==> v.None?
    ensures c.BoolCell? ==> c == BoolCell(v.value) && template.BoolCell?
    ensures v.Some? && !template.BoolCell? ==> c == TextCell(if v.value then anno.saveAsTrue else anno.saveAsFalse)
  {
    match v
    case Some(b) =>
      if EqualsIgnoreCase(anno.saveAsTrue, "true") && EqualsIgnoreCase(anno.saveAsFalse, "false")
         && template.BoolCell? then BoolCell(b)
      else if b then TextCell(anno.saveAsTrue)
      else TextCell(anno.saveAsFalse)
    case None => Blank
  }

  /** As written, the native-boolean branch is dead: the literal text is always
      written for a value, and a null value blanks the cell. */
  lemma AsWrittenAlwaysWritesText(v: Option<bool>, template: Cell, anno: BooleanAnno)
    ensures SavedContentAsWritten(v, template, anno) ==
      if v.None? then Blank
      else TextCell(if v.value then anno.saveAsTrue else anno.saveAsFalse)
  {
  }

  /** The input that shows it: the defaults and a boolean template cell. */
  lemma AsWrittenLosesNativeCell()
    ensures SavedContentAsWritten(Some(true), BoolCell(false), DefaultBooleanConverterAnnotation()) == TextCell("true")
    ensures SavedContent(Some(true), BoolCell(false), DefaultBooleanConverterAnnotation()) == BoolCell(true)
  {
    AsWrittenAlwaysWritesText(Some(true), BoolCell(false), DefaultBooleanConverterAnnotation());
    assert Fold("true") == "true";
    assert Fold("false") == "false";
  }

  /** The intended write: a boolean template with the literals "true"/"false"
      receives the native value; otherwise the literal for the value is
      written; a null value blanks the cell. */
  lemma SavedContentCases(v: Option<bool>, template: Cell, anno: BooleanAnno)
    ensures SavedContent(v, template, anno).Blank? <==> v.None?
    ensures v.Some? && template.BoolCell? && EqualsIgnoreCase(anno.saveAsTrue, "true")
            && EqualsIgnoreCase(anno.saveAsFalse, "false")
            ==> SavedContent(v, template, anno) == BoolCell(v.value)
    ensures v.Some? && !template.BoolCell? ==>
      SavedContent(v, template, anno) == TextCell(if v.value then anno.saveAsTrue else anno.saveAsFalse)
    ensures !template.BoolCell? ==> SavedContent(v, template, anno) == SavedContentAsWritten(v, template, anno)
  {
  }

  /** A reference to a sheet cell whose content the converter overwrites. */
  class CellRef {
    var content: Cell

    constructor (content: Cell)
      ensures this.content == content
    {
      this.content := content;
    }
  }

  /** Writes `value` (or the converted default when it is null) to the cell,
      with the native-boolean test as intended (`SavedContent`). */
  method ToCell(cell: CellRef, value: Option<bool>, defaultValue: Option<string>, fieldAnno: Option<BooleanAnno>)
    modifies cell
    ensures var anno := EffectiveAnnotation(fieldAnno);
      cell.content == SavedContent(SavedValue(value, defaultValue, anno), old(cell.content), anno)
  {
    var anno := EffectiveAnnotation(fieldAnno);
    var v := value;
    if v.None? && defaultValue.Some? {
      v := ConvertFromString(defaultValue.value, anno);
    }
    cell.content := SavedContent(v, cell.content, anno);
  }

  /** Writing a value and reading the cell back gives the value, for any
      annotation whose true literal is a true synonym and whose false literal
      is a false synonym but not a true one, when trimming and the default
      leave both literals as they are. This holds for the code as written and
      for the corrected write alike. */
  lemma WriteThenRead(b: bool, template: Cell, fieldAnno: Option<BooleanAnno>, trim: string -> string,
                      defaultIfEmpty: string -> string, primitiveTarget: bool)
    requires var a := EffectiveAnnotation(fieldAnno);
      && MatchesAny(a.saveAsTrue, a.loadForTrue, a.ignoreCase)
      && MatchesAny(a.saveAsFalse, a.loadForFalse, a.ignoreCase)
      && !MatchesAny(a.saveAsFalse, a.loadForTrue, a.ignoreCase)
    requires var a := EffectiveAnnotation(fieldAnno);
      defaultIfEmpty(trim(a.saveAsTrue)) == a.saveAsTrue && defaultIfEmpty(trim(a.saveAsFalse)) == a.saveAsFalse
    ensures var a := EffectiveAnnotation(fieldAnno);
      ToObject(SavedContent(Some(b), template, a), fieldAnno, trim, defaultIfEmpty, primitiveTarget) == Loaded(Some(b))
    ensures var a := EffectiveAnnotation(fieldAnno);
      ToObject(SavedContentAsWritten(Some(b), template, a), fieldAnno, trim, defaultIfEmpty, primitiveTarget) == Loaded(Some(b))
  {
  }

  /** With the default configuration the conditions hold, so writing and
      reading back gives the value. */
  lemma DefaultWriteThenRead(b: bool, template: Cell, trim: string -> string,
                             defaultIfEmpty: string -> string, primitiveTarget: bool)
    requires defaultIfEmpty(trim("true")) == "true" && defaultIfEmpty(trim("false")) == "false"
    ensures var a := DefaultBooleanConverterAnnotation();
      ToObject(SavedContent(Some(b), template, a), None, trim, defaultIfEmpty, primitiveTarget) == Loaded(Some(b))
  {
    WriteThenRead(b, template, None, trim, defaultIfEmpty, primitiveTarget);
  }
}
