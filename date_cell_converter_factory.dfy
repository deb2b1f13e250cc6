/** How the factory for date converters
    (com.gh.mygreen.xlsmapper.cellconverter.impl.AbstractDateCellConverterFactory)
    resolves the options of the date-converter annotation: the Java pattern and
    the Excel pattern each fall back to the type's default, leniency defaults to
    false, and with an annotation the locale and the time zone are set too.

    A `java.text.SimpleDateFormat` is modelled by the configuration it is built
    with; parsing and formatting with it are functions the caller supplies. */
module DateCellConverterFactory {
  import opened Wrappers

  /** The attributes of the date-converter annotation. */
  datatype DateAnno = DateAnno(
    javaPattern: string,
    excelPattern: string,
    lenient: bool,
    locale: string,
    timezone: string)

  /** The standard patterns of the concrete date type (the factory's abstract
      `getDefaultJavaPattern` and `getDefaultExcelPattern`). */
  datatype TypeDefaults = TypeDefaults(javaPattern: string, excelPattern: string)

  datatype TimeZone = SystemDefault | Named(id: string)

  /** A formatter, described by what it is configured with. `locale` holds the
      annotation's locale text as handed to the locale lookup; `None` in
      `locale` or `timeZone` means the formatter's own default was left. */
  datatype FormatterConfig = FormatterConfig(
    pattern: string,
    lenient: bool,
    locale: Option<string>,
    timeZone: Option<TimeZone>)

  /** The Java pattern: the annotation's, unless absent or empty. */
  function JavaPattern(anno: Option<DateAnno>, d: TypeDefaults): (p: string)
    ensures p == d.javaPattern || (anno.Some? && p == anno.value.javaPattern)
    ensures anno.Some? && anno.value.javaPattern != "" ==> p == anno.value.javaPattern
    ensures p == "" ==> d.javaPattern == ""
  {
    if anno.None? then d.javaPattern
    else
      var pattern := anno.value.javaPattern;
      if pattern == "" then d.javaPattern else pattern
  }

  /** The Excel pattern: the annotation's, unless absent or empty. */
  function ExcelPattern(anno: Option<DateAnno>, d: TypeDefaults): (p: string)
    ensures p == d.excelPattern || (anno.Some? && p == anno.value.excelPattern)
    ensures anno.Some? && anno.value.excelPattern != "" ==> p == anno.value.excelPattern
    ensures p == "" ==> d.excelPattern == ""
  {
    if anno.None? then d.excelPattern
    else
      var pattern := anno.value.excelPattern;
      if pattern == "" then d.excelPattern else pattern
  }

  /** Each pattern is resolved without looking at the other one. */
  lemma PatternsResolvedIndependently(a: DateAnno, d: TypeDefaults, javaPattern: string, excelPattern: string)
    ensures JavaPattern(Some(a.(excelPattern := excelPattern)), d) == JavaPattern(Some(a), d)
    ensures ExcelPattern(Some(a.(javaPattern := javaPattern)), d) == ExcelPattern(Some(a), d)
    ensures JavaPattern(Some(a), d) == JavaPattern(Some(a), d.(excelPattern := excelPattern))
    ensures ExcelPattern(Some(a), d) == ExcelPattern(Some(a), d.(javaPattern := javaPattern))
  {
  }

  /** The formatter for the field: without an annotation, only the default
      pattern and non-lenient parsing; with one, the resolved pattern, its
      leniency, its locale, and its time zone (the system's when empty). */
  function CreateFormatter(anno: Option<DateAnno>, d: TypeDefaults): (f: FormatterConfig)
    ensures f.pattern == JavaPattern(anno, d)
    ensures f.lenient <==> anno.Some? && anno.value.lenient
    ensures anno.None? <==> f.locale.None?
    ensures anno.None? <==> f.timeZone.None?
    ensures anno.Some? ==> f.locale == Some(anno.value.locale)
    ensures anno.Some? ==> (f.timeZone == Some(SystemDefault) <==> anno.value.timezone == "")
    ensures anno.Some? && anno.value.timezone != "" ==> f.timeZone == Some(Named(anno.value.timezone))
  {
    var lenient := if anno.Some? then anno.value.lenient else false;
    if anno.None? then
      FormatterConfig(d.javaPattern, lenient, None, None)
    else
      var pattern := JavaPattern(anno, d);
      var timeZone := if anno.value.timezone == "" then SystemDefault else Named(anno.value.timezone);
      FormatterConfig(pattern, lenient, Some(anno.value.locale), Some(timeZone))
  }

  /** The failure of parsing a text: the text, the field's type and the
      variables offered to the message template. */
  datatype TextParseError = TextParseError(text: string, fieldType: string, vars: map<string, string>)

  /** The variables of a parse error: the two resolved patterns. */
  function ParseErrorVars(anno: Option<DateAnno>, d: TypeDefaults): (vars: map<string, string>)
    ensures vars.Keys == {"javaPattern", "excelPattern"}
    ensures vars["javaPattern"] == JavaPattern(anno, d)
    ensures vars["excelPattern"] == ExcelPattern(anno, d)
  {
    map["javaPattern" := JavaPattern(anno, d), "excelPattern" := ExcelPattern(anno, d)]
  }

  /** The text formatter built for a field: one formatter shared by parse and
      format, and the annotation it came from. */
  datatype TextFormatter = TextFormatter(formatter: FormatterConfig, anno: Option<DateAnno>, defaults: TypeDefaults)

  function CreateTextFormatter(anno: Option<DateAnno>, d: TypeDefaults): (t: TextFormatter)
    ensures t.formatter == CreateFormatter(anno, d)
    ensures t.anno == anno && t.defaults == d
    // the pattern a parse error reports is the pattern of the one formatter built
    ensures t.formatter.pattern == ParseErrorVars(t.anno, t.defaults)["javaPattern"]
  {
    TextFormatter(CreateFormatter(anno, d), anno, d)
  }

  /** Parsing `text`: the date the formatter reads, turned into the field's
      type by `convert`, or a parse error. `parseWith` is the formatter's
      parse, `None` standing for its ParseException. */
  function Parse<D, T>(t: TextFormatter, text: string, fieldType: string,
                       parseWith: (FormatterConfig, string) -> Option<D>, convert: D -> T): (r: Result<T, TextParseError>)
    ensures r.Success? <==> parseWith(t.formatter, text).Some?
    ensures r.Success? ==> r.value == convert(parseWith(t.formatter, text).value)
    ensures r.Failure? ==> r.error.text == text && r.error.fieldType == fieldType
    ensures r.Failure? ==> r.error.vars.Keys == {"javaPattern", "excelPattern"}
    ensures r.Failure? ==> r.error.vars["javaPattern"] == JavaPattern(t.anno, t.defaults)
    ensures r.Failure? ==> r.error.vars["excelPattern"] == ExcelPattern(t.anno, t.defaults)
  {
    match parseWith(t.formatter, text)
    case Some(date) => Success(convert(date))
    case None => Failure(TextParseError(text, fieldType, ParseErrorVars(t.anno, t.defaults)))
  }

  /** The pattern a parse error discloses is the one the formatter parsed with. */
  lemma ParseErrorNamesFormatterPattern<D, T>(anno: Option<DateAnno>, d: TypeDefaults, text: string, fieldType: string,
                                              parseWith: (FormatterConfig, string) -> Option<D>, convert: D -> T)
    requires Parse(CreateTextFormatter(anno, d), text, fieldType, parseWith, convert).Failure?
    ensures Parse(CreateTextFormatter(anno, d), text, fieldType, parseWith, convert).error.vars["javaPattern"]
         == CreateFormatter(anno, d).pattern
  {
  }

  /** Formatting a value with the same formatter that `Parse` reads with.
      `formatWith` is the formatter's format. */
  function Format<T>(t: TextFormatter, value: T, formatWith: (FormatterConfig, T) -> string): (s: string)
    ensures s == formatWith(t.formatter, value)
  {
    formatWith(t.formatter, value)
  }

  /** Parse and format share one formatter: when that formatter reads back
      what it writes, formatting then parsing returns the value. */
  lemma FormatThenParse<D, T>(anno: Option<DateAnno>, d: TypeDefaults, value: T, fieldType: string,
                              parseWith: (FormatterConfig, string) -> Option<D>,
                              formatWith: (FormatterConfig, T) -> string,
                              toDate: T -> D, convert: D -> T)
    requires var f := CreateFormatter(anno, d); parseWith(f, formatWith(f, value)) == Some(toDate(value))
    requires convert(toDate(value)) == value
    ensures var t := CreateTextFormatter(anno, d);
      Parse(t, Format(t, value, formatWith), fieldType, parseWith, convert) == Success(value)
  {
  }

  /** A cell converter as the factory sees it: whether it is a date converter,
      and the Excel pattern a date converter applies to the cells it writes. */
  class CellConverter {
    const isDateConverter: bool
    var excelPattern: string

    constructor (isDateConverter: bool, excelPattern: string)
      ensures this.isDateConverter == isDateConverter && this.excelPattern == excelPattern
    {
      this.isDateConverter := isDateConverter;
      this.excelPattern := excelPattern;
    }
  }

  /** Gives a date converter the resolved Excel pattern; any other converter
      is left as it was. */
  method SetupCustom(converter: CellConverter, anno: Option<DateAnno>, d: TypeDefaults)
    modifies converter
    ensures converter.isDateConverter ==> converter.excelPattern == ExcelPattern(anno, d)
    ensures !converter.isDateConverter ==> converter.excelPattern == old(converter.excelPattern)
  {
    if converter.isDateConverter {
      var excelPattern := ExcelPattern(anno, d);
      converter.excelPattern := excelPattern;
    }
  }
}
