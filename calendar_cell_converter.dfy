/** The converter between spreadsheet cells and `java.util.Calendar` fields
    (com.gh.mygreen.xlsmapper.converter.impl.CalendarCellConverter). It delegates
    reading to the date converter and lifts the date into a calendar; when
    writing, it substitutes the default value for a null field, applies the
    date pattern as the cell's data format, and writes the value, the formula,
    or a blank.

    The date converter it delegates to is not part of this model: its reading
    result, its default annotation, its parsing of a text with the formatter
    an annotation configures, and its error-message variables are inputs. */
module CalendarCellConverter {
  import opened Wrappers
  import DateCellConverterFactory

  type DateAnno = DateCellConverterFactory.DateAnno

  /** A calendar, described by the instant it was set to. */
  datatype Calendar<D> = Calendar(time: D)

  /** Reading: null stays null, a date becomes a calendar set to that date. */
  function ToObject<D>(date: Option<D>): (cal: Option<Calendar<D>>)
    ensures cal.None? <==> date.None?
    ensures cal.Some? ==> cal.value.time == date.value
  {
    match date
    case None => None
    case Some(d) => Some(Calendar(d))
  }

  /** The formula annotation; only its `primary` attribute matters here, the
      rest is read by the formula setup. */
  datatype FormulaAnno = FormulaAnno(primary: bool, value: string)

  /** Whether the formula takes precedence over the value: never without a
      formula annotation. */
  function PrimaryFormula(formula: Option<FormulaAnno>): (p: bool)
    ensures p ==> formula.Some?
    ensures formula.Some? ==> (p <==> formula.value.primary)
  {
    match formula
    case None => false
    case Some(f) => f.primary
  }

  /** The date annotation that governs writing: the field's, else the date
      converter's default. */
  function EffectiveDateAnno(fieldAnno: Option<DateAnno>, defaultAnno: DateAnno): (a: DateAnno)
    ensures fieldAnno.Some? ==> a == fieldAnno.value
    ensures fieldAnno.None? ==> a == defaultAnno
  {
    if fieldAnno.Some? then fieldAnno.value else defaultAnno
  }

  /** The annotation whose formatter parses the default value: the governing
      one if its Java pattern is not empty, else the default one. */
  function DefaultParsingAnno(anno: DateAnno, defaultAnno: DateAnno): (a: DateAnno)
    ensures a == anno || a == defaultAnno
    ensures anno.javaPattern != "" ==> a == anno
    ensures anno.javaPattern == "" ==> a == defaultAnno
  {
    if anno.javaPattern != "" then anno else defaultAnno
  }

  /** A default value that cannot be parsed: the offending text and the
      message variables of the governing annotation. */
  datatype TypeBindError = TypeBindError(defaultValue: string, messageVars: map<string, string>)

  /** The value to write: the field's value, or, when it is null and a default
      is configured, the parsed default. `parseDate` parses a text with the
      formatter an annotation configures (`None` for a ParseException). */
  function ValueToWrite<D>(target: Option<Calendar<D>>, defaultValue: Option<string>,
                           anno: DateAnno, defaultAnno: DateAnno,
                           parseDate: (DateAnno, string) -> Option<D>,
                           messageVars: DateAnno -> map<string, string>): (r: Result<Option<Calendar<D>>, TypeBindError>)
    // a value that is present is never replaced
    ensures target.Some? ==> r == Success(target)
    ensures target.None? && defaultValue.None? ==> r == Success(None)
    // the default fails exactly when its parse fails, and the error names it
    ensures r.Failure? <==>
      target.None? && defaultValue.Some?
      && parseDate(DefaultParsingAnno(anno, defaultAnno), defaultValue.value).None?
    ensures r.Failure? ==> r.error == TypeBindError(defaultValue.value, messageVars(anno))
    ensures r.Success? && target.None? && defaultValue.Some? ==>
      r.value == Some(Calendar(parseDate(DefaultParsingAnno(anno, defaultAnno), defaultValue.value).value))
  {
    if target.None? && defaultValue.Some? then
      var text := defaultValue.value;
      match parseDate(DefaultParsingAnno(anno, defaultAnno), text)
      case Some(date) => Success(Some(Calendar(date)))
      case None => Failure(TypeBindError(text, messageVars(anno)))
    else Success(target)
  }

  /** The content of a sheet cell as far as this converter writes it. */
  datatype CellContent<D> =
    | CalendarValue(cal: Calendar<D>)
    | Formula(formula: FormulaAnno)
    | BlankCell
    | Other

  /** What is written: the value unless it is null or the formula is primary;
      otherwise the formula if there is one; otherwise a blank. */
  function Outcome<D>(value: Option<Calendar<D>>, formula: Option<FormulaAnno>): (c: CellContent<D>)
    ensures c.CalendarValue? <==> value.Some? && !PrimaryFormula(formula)
    ensures c.CalendarValue? ==> c.cal == value.value
    ensures c.Formula? <==> !(value.Some? && !PrimaryFormula(formula)) && formula.Some?
    ensures c.Formula? ==> c.formula == formula.value
    ensures c.BlankCell? <==> (value.None? || PrimaryFormula(formula)) && formula.None?
    ensures !c.Other?
  {
    if value.Some? && !PrimaryFormula(formula) then CalendarValue(value.value)
    else if formula.Some? then Formula(formula.value)
    else BlankCell
  }

  /** A null field without a default is never written as a value. */
  lemma NullWithoutDefaultIsFormulaOrBlank<D>(defaultAnno: DateAnno, fieldAnno: Option<DateAnno>,
                                              formula: Option<FormulaAnno>,
                                              parseDate: (DateAnno, string) -> Option<D>,
                                              messageVars: DateAnno -> map<string, string>)
    ensures var v := ValueToWrite(None, None, EffectiveDateAnno(fieldAnno, defaultAnno), defaultAnno, parseDate, messageVars);
      v.Success? && Outcome(v.value, formula) == if formula.Some? then Formula(formula.value) else BlankCell
  {
  }

  /** A null field with a default that parses is written as that default,
      unless a primary formula takes precedence. */
  lemma DefaultIsWritten<D>(text: string, defaultAnno: DateAnno, fieldAnno: Option<DateAnno>,
                            formula: Option<FormulaAnno>,
                            parseDate: (DateAnno, string) -> Option<D>,
                            messageVars: DateAnno -> map<string, string>)
    requires var anno := EffectiveDateAnno(fieldAnno, defaultAnno);
      parseDate(DefaultParsingAnno(anno, defaultAnno), text).Some?
    requires formula.None? || !formula.value.primary
    ensures var anno := EffectiveDateAnno(fieldAnno, defaultAnno);
      var v := ValueToWrite(None, Some(text), anno, defaultAnno, parseDate, messageVars);
      v.Success? && Outcome(v.value, formula) ==
        CalendarValue(Calendar(parseDate(DefaultParsingAnno(anno, defaultAnno), text).value))
  {
  }

  /** The data format applied when writing: the governing annotation's Java
      pattern, when it is not empty. */
  function DataFormat(fieldAnno: Option<DateAnno>, defaultAnno: DateAnno): (f: Option<string>)
    ensures f.Some? <==> EffectiveDateAnno(fieldAnno, defaultAnno).javaPattern != ""
    ensures f.Some? ==> f.value == EffectiveDateAnno(fieldAnno, defaultAnno).javaPattern
    ensures fieldAnno.None? ==> (f.Some? <==> defaultAnno.javaPattern != "")
  {
    var anno := EffectiveDateAnno(fieldAnno, defaultAnno);
    if anno.javaPattern != "" then Some(anno.javaPattern) else None
  }

  /** A sheet cell: the data format of its style (as a pattern) and its content. */
  class SheetCell<D> {
    var dataFormat: string
    var content: CellContent<D>

    constructor (dataFormat: string, content: CellContent<D>)
      ensures this.dataFormat == dataFormat && this.content == content
    {
      this.dataFormat := dataFormat;
      this.content := content;
    }
  }

  /** Writes the field's value to the cell, or reports the default value that
      could not be parsed and leaves the cell as it was. */
  method ToCell<D>(cell: SheetCell<D>, targetValue: Option<Calendar<D>>, defaultValue: Option<string>,
                   fieldAnno: Option<DateAnno>, defaultAnno: DateAnno, formula: Option<FormulaAnno>,
                   parseDate: (DateAnno, string) -> Option<D>,
                   messageVars: DateAnno -> map<string, string>) returns (err: Option<TypeBindError>)
    modifies cell
    ensures var anno := EffectiveDateAnno(fieldAnno, defaultAnno);
      var v := ValueToWrite(targetValue, defaultValue, anno, defaultAnno, parseDate, messageVars);
      && (v.Failure? ==> err == Some(v.error) && cell.content == old(cell.content)
                         && cell.dataFormat == old(cell.dataFormat))
      && (v.Success? ==> err.None? && cell.content == Outcome(v.value, formula))
      && (v.Success? && DataFormat(fieldAnno, defaultAnno).Some? ==>
            cell.dataFormat == DataFormat(fieldAnno, defaultAnno).value)
      && (v.Success? && DataFormat(fieldAnno, defaultAnno).None? ==> cell.dataFormat == old(cell.dataFormat))
  {
    var anno := if fieldAnno.Some? then fieldAnno.value else defaultAnno;
    var primaryFormula := if formula.Some? then formula.value.primary else false;

    var value := targetValue;
    if value.None? && defaultValue.Some? {
      var text := defaultValue.value;
      var formatterAnno := if anno.javaPattern != "" then anno else defaultAnno;
      var date := parseDate(formatterAnno, text);
      if date.None? {
        return Some(TypeBindError(text, messageVars(anno)));
      }
      value := Some(Calendar(date.value));
    }

    if anno.javaPattern != "" {
      cell.dataFormat := anno.javaPattern;
    }

    if value.Some? && !primaryFormula {
      cell.content := CalendarValue(value.value);
    } else if formula.Some? {
      cell.content := Formula(formula.value);
    } else {
      cell.content := BlankCell;
    }
    err := None;
  }
}
