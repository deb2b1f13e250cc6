# xlsmapper converters and array-cell processor, modelled in Dafny

This project models the decision code of xlsmapper, a library that binds
annotated Java beans to spreadsheet cells. Four source files are modelled,
from the library's two package generations, each in its own module:

- `BooleanCellConverter` (`boolean_cell_converter.dfy`): reading a cell into a
  `Boolean`. A native boolean cell gives its own flag. Other text is trimmed,
  then replaced by the default when empty, then matched against the true
  synonyms and after them the false synonyms. The match ignores case or is
  exact. If nothing matches, `failToFalse` can force FALSE; a primitive
  target gets FALSE; non-empty unmatched text raises a type-bind error that
  lists the accepted values. Writing puts the `saveAsTrue`/`saveAsFalse`
  literal or a blank in the cell. A null value with a default is first
  replaced by the converted default. The code also has a branch that writes a
  native boolean to a boolean template cell, but its test can never hold;
  `ToCell` applies the corrected test described under "## Findings", and
  `SavedContentAsWritten` keeps the test as written.
- `DateCellConverterFactory` (`date_cell_converter_factory.dfy`): how the
  date-converter factory resolves the Java pattern, the Excel pattern,
  leniency, locale and time zone. It also covers the shared formatter behind
  parse and format, the two-pattern variables of a parse error, and the Excel
  pattern given to date converters.
- `CalendarCellConverter` (`calendar_cell_converter.dfy`): the `Calendar`
  converter. Reading lifts the date converter's result into a calendar and
  keeps null. Writing substitutes a parsed default for a null value and
  chooses which formatter parses it. It applies the data format and then
  writes exactly one of the value, the formula or a blank.
- `ArrayCellProcessor` (`array_cell_processor.dfy`): the array-cell field
  processor. It validates the start position (an address, or a row and a
  column that must each be at least 0, row first). It resolves the item
  class and dispatches on Collection, array or unsupported type. On load it
  copies the loaded list into a new array index by index.

`Wrappers` (`wrappers.dfy`) holds `Option` (a Java reference that may be
null) and `Result` (a value or the exception thrown).

The following become parameters of the model: spreadsheet storage, Java
reflection, `SimpleDateFormat`, and the helpers whose source is not part of
this model (`Utils.trim`, `Utils.getDefaultValueIfEmpty`, `CellPosition.of`,
the array-cell handler, the date converter). Each is passed in as a function
or a value.

Three behaviours of the code that the model keeps:

- For a primitive boolean target, non-empty unmatched text still raises the
  type-bind error. The error check runs before the primitive fallback, so
  coercion to FALSE applies only to empty text.
- In the boolean `toObject`, the `failToFalse` test after the conversion
  (line 57) never decides anything for a non-boolean cell.
  `convertFromString` has already returned FALSE under that flag, so the
  result is never null there.
- On writing, the calendar converter reads the trim annotation but does not
  use it. The default text is passed to the date converter's `parseDate`
  untrimmed.

One behaviour of the code that the model corrects: `BooleanCellConverter.ToCell`
writes with the intended native-boolean test (`SavedContent`), not with the
test at lines 208-210, which no annotation can satisfy (see "## Findings").

## Model

| member | source | states |
|---|---|---|
| `BooleanCellConverter.DefaultBooleanConverterAnnotation` | src/main/java/org/mygreen/xlsmapper/cellconvert/converter/BooleanCellConverter.java:68-106 | the default configuration ignores case, does not force FALSE, reads its own "true" literal as a true synonym and its "false" literal as a false synonym only, and its literals are exactly "true" and "false" |
| `BooleanCellConverter.EffectiveAnnotation` | src/main/java/org/mygreen/xlsmapper/cellconvert/converter/BooleanCellConverter.java:108-124 | the field's boolean-converter annotation when it has one, otherwise the default configuration, for loading and saving alike |
| `BooleanCellConverter.Converted` | src/main/java/org/mygreen/xlsmapper/cellconvert/converter/BooleanCellConverter.java:140-165 | the reference definition of the conversion: TRUE iff a true synonym matches; FALSE iff no true synonym matches and a false synonym matches or `failToFalse` holds; null iff nothing matches and `failToFalse` is off |
| `BooleanCellConverter.EffectiveText` | src/main/java/org/mygreen/xlsmapper/cellconvert/converter/BooleanCellConverter.java:39-41 | the converted text is the cell's text (empty for a non-text cell) trimmed and then replaced by the default when empty |
| `BooleanCellConverter.ConvertFromString` | src/main/java/org/mygreen/xlsmapper/cellconvert/converter/BooleanCellConverter.java:140-165 | the two early-return loops give TRUE on a true-synonym match, else FALSE on a false-synonym match, else FALSE under `failToFalse`, else null (equal to `Converted`) |
| `BooleanCellConverter.TrueSynonymsWin` | src/main/java/org/mygreen/xlsmapper/cellconvert/converter/BooleanCellConverter.java:141-157 | text matching both lists converts to TRUE |
| `BooleanCellConverter.FailToFalseNeverNull` | src/main/java/org/mygreen/xlsmapper/cellconvert/converter/BooleanCellConverter.java:159-164 | with `failToFalse` the conversion is never null, and it is TRUE exactly for a true-synonym match |
| `BooleanCellConverter.IgnoreCaseConvertsCaseVariantsAlike` | src/main/java/org/mygreen/xlsmapper/cellconvert/converter/BooleanCellConverter.java:142-155 | with `ignoreCase`, two texts equal ignoring case convert to the same result |
| `BooleanCellConverter.IgnoreCaseMatchesFoldedText` | src/main/java/org/mygreen/xlsmapper/cellconvert/converter/BooleanCellConverter.java:142-152 | with `ignoreCase`, a text converts like its lower-cased spelling |
| `BooleanCellConverter.ExactMatchWithoutIgnoreCase` | src/main/java/org/mygreen/xlsmapper/cellconvert/converter/BooleanCellConverter.java:145-155 | without `ignoreCase`, TRUE iff the exact text is a true synonym; FALSE iff it is not a true synonym and is a false synonym or `failToFalse` holds |
| `BooleanCellConverter.AddAll` | src/main/java/org/mygreen/xlsmapper/cellconvert/converter/BooleanCellConverter.java:134-135 | adding a list to an insertion-ordered set appends each value not yet present, in order |
| `BooleanCellConverter.LoadingAvailableValues` | src/main/java/org/mygreen/xlsmapper/cellconvert/converter/BooleanCellConverter.java:131-138 | the candidates are the true list then the false list with repeats of earlier values dropped (`Firsts`) |
| `BooleanCellConverter.CandidateValuesProperties` | src/main/java/org/mygreen/xlsmapper/cellconvert/converter/BooleanCellConverter.java:131-138 | the candidate list starts with the distinct true synonyms, holds no value twice, and holds exactly the values of both lists |
| `BooleanCellConverter.ToObject` | src/main/java/org/mygreen/xlsmapper/cellconvert/converter/BooleanCellConverter.java:29-66 | a native cell gives its flag; an error iff non-empty text matches neither list and `failToFalse` is off, carrying the text and the candidates; TRUE iff native true or a true-synonym match; null iff the text is empty and unmatched without `failToFalse` on a wrapper target |
| `BooleanCellConverter.EmptyTextFallback` | src/main/java/org/mygreen/xlsmapper/cellconvert/converter/BooleanCellConverter.java:57-65 | unmatched empty text gives FALSE under `failToFalse`, else FALSE for a primitive target, else null |
| `BooleanCellConverter.NativeBooleanBypassesText` | src/main/java/org/mygreen/xlsmapper/cellconvert/converter/BooleanCellConverter.java:35-36 | a native boolean cell's result does not depend on trimming, the default or the target kind |
| `BooleanCellConverter.DefaultAnnotationReadsSynonyms` | src/main/java/org/mygreen/xlsmapper/cellconvert/converter/BooleanCellConverter.java:68-106 | with no annotation, "YES" reads as TRUE and "Off" as FALSE (default lists, case ignored) |
| `BooleanCellConverter.DefaultAnnotationReadsBlank` | src/main/java/org/mygreen/xlsmapper/cellconvert/converter/BooleanCellConverter.java:57-65 | with no annotation a blank cell is null for a wrapper target and FALSE for a primitive one |
| `BooleanCellConverter.DefaultAnnotationRejectsUnknownText` | src/main/java/org/mygreen/xlsmapper/cellconvert/converter/BooleanCellConverter.java:43-50 | with no annotation "maybe" is an error listing the twelve default synonyms, true ones first |
| `BooleanCellConverter.SavedValue` | src/main/java/org/mygreen/xlsmapper/cellconvert/converter/BooleanCellConverter.java:202-205 | a non-null value is never replaced; a null value without a default stays null; a null value with a default becomes the conversion of the default text with the saving annotation (`Converted`) |
| `BooleanCellConverter.SavedContentAsWritten` | src/main/java/org/mygreen/xlsmapper/cellconvert/converter/BooleanCellConverter.java:207-221 | the write as the code tests it: a blank iff the value is null; on a non-boolean template the literal for the value |
| `BooleanCellConverter.SavedContent` | src/main/java/org/mygreen/xlsmapper/cellconvert/converter/BooleanCellConverter.java:207-221 | the write with the corrected native-boolean test: a blank iff the value is null; a native cell only on a boolean template and then holding the value; on a non-boolean template the literal for the value |
| `BooleanCellConverter.AsWrittenAlwaysWritesText` | src/main/java/org/mygreen/xlsmapper/cellconvert/converter/BooleanCellConverter.java:207-221 | as written, a value always writes its literal text and null writes a blank: the native-boolean branch is never taken |
| `BooleanCellConverter.AsWrittenLosesNativeCell` | src/main/java/org/mygreen/xlsmapper/cellconvert/converter/BooleanCellConverter.java:208-212 | with the defaults and a boolean template cell, the code writes the text "true" where a native TRUE was intended |
| `BooleanCellConverter.SavedContentCases` | src/main/java/org/mygreen/xlsmapper/cellconvert/converter/BooleanCellConverter.java:207-221 | blank iff null; a boolean template with literals "true"/"false" gets the native value; a non-boolean template gets the literal; off boolean templates the fix changes nothing |
| `BooleanCellConverter.ToCell` | src/main/java/org/mygreen/xlsmapper/cellconvert/converter/BooleanCellConverter.java:181-224 | the cell receives `SavedContent` of the value, or of the converted default when the value is null; this applies the corrected native-boolean test named under "## Findings", not the test at lines 208-210 |
| `BooleanCellConverter.WriteThenRead` | src/main/java/org/mygreen/xlsmapper/cellconvert/converter/BooleanCellConverter.java:29-66 | for any annotation whose true literal is a true synonym and whose false literal is a false synonym and not a true one, with trimming and the default leaving both literals unchanged, writing a value (as written or corrected) and reading the cell back gives the value |
| `BooleanCellConverter.DefaultWriteThenRead` | src/main/java/org/mygreen/xlsmapper/cellconvert/converter/BooleanCellConverter.java:68-106 | the default configuration meets those conditions, so writing a value and reading the cell back gives the value |
| `DateCellConverterFactory.JavaPattern` | src/main/java/com/gh/mygreen/xlsmapper/cellconverter/impl/AbstractDateCellConverterFactory.java:108-119 | the pattern is the type default or the annotation's; a non-empty configured pattern wins; it is empty only if the default is |
| `DateCellConverterFactory.ExcelPattern` | src/main/java/com/gh/mygreen/xlsmapper/cellconverter/impl/AbstractDateCellConverterFactory.java:121-132 | the same resolution for the Excel pattern |
| `DateCellConverterFactory.PatternsResolvedIndependently` | src/main/java/com/gh/mygreen/xlsmapper/cellconverter/impl/AbstractDateCellConverterFactory.java:108-132 | neither pattern depends on the other pattern's attribute or default |
| `DateCellConverterFactory.CreateFormatter` | src/main/java/com/gh/mygreen/xlsmapper/cellconverter/impl/AbstractDateCellConverterFactory.java:86-106 | pattern is the resolved Java pattern; lenient iff an annotation says so; locale and time zone set iff annotated; empty time zone means the system default, else the named zone |
| `DateCellConverterFactory.CreateTextFormatter` | src/main/java/com/gh/mygreen/xlsmapper/cellconverter/impl/AbstractDateCellConverterFactory.java:51-55 | the text formatter holds the one formatter `CreateFormatter` builds for the annotation, and the Java pattern a parse error reports is that formatter's pattern |
| `DateCellConverterFactory.Format` | src/main/java/com/gh/mygreen/xlsmapper/cellconverter/impl/AbstractDateCellConverterFactory.java:73-76 | formatting uses the formatter the text formatter holds, the same one `Parse` reads with |
| `DateCellConverterFactory.ParseErrorVars` | src/main/java/com/gh/mygreen/xlsmapper/cellconverter/impl/AbstractDateCellConverterFactory.java:65-67 | exactly the keys `javaPattern` and `excelPattern`, bound to the resolved patterns |
| `DateCellConverterFactory.Parse` | src/main/java/com/gh/mygreen/xlsmapper/cellconverter/impl/AbstractDateCellConverterFactory.java:59-71 | success iff the shared formatter parses the text, giving the converted date; a failure carries the text, the field type and the two pattern variables |
| `DateCellConverterFactory.ParseErrorNamesFormatterPattern` | src/main/java/com/gh/mygreen/xlsmapper/cellconverter/impl/AbstractDateCellConverterFactory.java:53-70 | the `javaPattern` a parse error discloses is the pattern the formatter parsed with |
| `DateCellConverterFactory.FormatThenParse` | src/main/java/com/gh/mygreen/xlsmapper/cellconverter/impl/AbstractDateCellConverterFactory.java:51-79 | parse and format use the one formatter built for the annotation, so when that formatter reads back what it writes, format-then-parse is the identity |
| `DateCellConverterFactory.SetupCustom` | src/main/java/com/gh/mygreen/xlsmapper/cellconverter/impl/AbstractDateCellConverterFactory.java:33-48 | a date converter gets the resolved Excel pattern; any other converter is unchanged |
| `CalendarCellConverter.ToObject` | src/main/java/com/gh/mygreen/xlsmapper/converter/impl/CalendarCellConverter.java:45-52 | null iff the date is null; otherwise a calendar set to that date |
| `CalendarCellConverter.PrimaryFormula` | src/main/java/com/gh/mygreen/xlsmapper/converter/impl/CalendarCellConverter.java:66-67 | false without a formula annotation, else the annotation's `primary` |
| `CalendarCellConverter.EffectiveDateAnno` | src/main/java/com/gh/mygreen/xlsmapper/converter/impl/CalendarCellConverter.java:63-64 | the field's date annotation, else the date converter's default |
| `CalendarCellConverter.DefaultParsingAnno` | src/main/java/com/gh/mygreen/xlsmapper/converter/impl/CalendarCellConverter.java:81-85 | the default is parsed with the governing annotation if its Java pattern is non-empty, otherwise with the default annotation |
| `CalendarCellConverter.ValueToWrite` | src/main/java/com/gh/mygreen/xlsmapper/converter/impl/CalendarCellConverter.java:74-97 | a non-null value is never replaced; the default is consulted only for null with a default; failure iff that parse fails, carrying the default text and the governing annotation's message vars |
| `CalendarCellConverter.Outcome` | src/main/java/com/gh/mygreen/xlsmapper/converter/impl/CalendarCellConverter.java:104-112 | exactly one of: value iff non-null and not primary formula; else formula iff annotated; else blank |
| `CalendarCellConverter.NullWithoutDefaultIsFormulaOrBlank` | src/main/java/com/gh/mygreen/xlsmapper/converter/impl/CalendarCellConverter.java:77-112 | a null value without a default writes the formula if there is one, otherwise a blank |
| `CalendarCellConverter.DefaultIsWritten` | src/main/java/com/gh/mygreen/xlsmapper/converter/impl/CalendarCellConverter.java:77-105 | a null value whose default parses writes the parsed default unless a primary formula takes precedence |
| `CalendarCellConverter.DataFormat` | src/main/java/com/gh/mygreen/xlsmapper/converter/impl/CalendarCellConverter.java:100-102 | a data format is applied iff the governing annotation's Java pattern is non-empty, and then it is that pattern |
| `CalendarCellConverter.ToCell` | src/main/java/com/gh/mygreen/xlsmapper/converter/impl/CalendarCellConverter.java:55-115 | on a default parse failure the error is returned and the cell is untouched; otherwise the data format is set as `DataFormat` says and the content is `Outcome` of the value to write |
| `ArrayCellProcessor.GetCellPosition` | src/main/java/com/gh/mygreen/xlsmapper/fieldprocessor/impl/ArrayCellProcessor.java:105-144 | a non-empty address is parsed, failure giving `anno.attr.invalidAddress` with that address; otherwise row < 0 fails for "row", then column < 0 for "column", else the position is (row, column) |
| `ArrayCellProcessor.ItemClass` | src/main/java/com/gh/mygreen/xlsmapper/fieldprocessor/impl/ArrayCellProcessor.java:40-43 | an explicit item class wins; `Object` means the field's component type |
| `ArrayCellProcessor.ToArray` | src/main/java/com/gh/mygreen/xlsmapper/fieldprocessor/impl/ArrayCellProcessor.java:61-64 | a new array of the list's length whose element i is list element i |
| `ArrayCellProcessor.LoadProcess` | src/main/java/com/gh/mygreen/xlsmapper/fieldprocessor/impl/ArrayCellProcessor.java:33-96 | unsupported type or bad position: error, nothing changed; otherwise the converter is registered iff it is a field formatter, and a non-null loaded list is stored as the collection or as a new equal array, a null one leaving the field unset |
| `ArrayCellProcessor.SaveProcess` | src/main/java/com/gh/mygreen/xlsmapper/fieldprocessor/impl/ArrayCellProcessor.java:148-197 | unsupported type fails first; otherwise failure iff the position is invalid; the handler gets the resolved item class, the position, and the collection's items (empty for null) or the array's list |
| `ArrayCellProcessor.UnsupportedTypeOnSave` | src/main/java/com/gh/mygreen/xlsmapper/fieldprocessor/impl/ArrayCellProcessor.java:175-182 | saving a field that is neither a Collection nor an array fails with `anno.notSupportType`, the key loading uses too (first ensures of `LoadProcess`) |

## Findings

| source | as written | input that shows it | evidently intended | confidence | as-written member | corrected member |
|---|---|---|---|---|---|---|
| src/main/java/org/mygreen/xlsmapper/cellconvert/converter/BooleanCellConverter.java:208-210 | the native-boolean branch requires `saveAsTrue` to equal both "true" and "false" ignoring case, which no string does | the default annotation, a boolean template cell and the value TRUE: the text "true" is written instead of a native TRUE | compare `saveAsFalse` with "false" in the second conjunct, so that a boolean template cell keeps a native value when the literals are the standard ones | not executed; high | `BooleanCellConverter.SavedContentAsWritten` (`AsWrittenAlwaysWritesText`, `AsWrittenLosesNativeCell`) | `BooleanCellConverter.SavedContent` (`SavedContentCases`), used by `ToCell` |

## Left out

- Spreadsheet storage. Getting cells, cell types, and `setCellValue`/`setCellType` are left out. The model uses a cell datatype or a small cell object instead.
- Cell styles. Wrap and shrink (`POIUtils.wrapCellText`, `shrinkToFit`) and `ConversionUtils.setupCellOption` are left out.
- Data formats. `POIUtils.getDataFormatIndex` is left out: a data format is recorded as its pattern text.
- Cell text. `POIUtils.getCellContents` with the cell formatter is left out: a text cell's text is used directly, and a blank cell reads as "".
- Default helpers. `Utils.trim` and `Utils.getDefaultValueIfEmpty` are parameters, applied in that order. `Utils.hasDefaultValue`/`getDefaultValue` become an optional default text.
- EqualsIgnoreCase: folds only ASCII letters. Java's `equalsIgnoreCase` also folds non-ASCII letters, and that Unicode case mapping is not modelled.
- BooleanCellConverter.ToObject: the error carries the candidate values as a list. `Utils.join` with ", " and the rest of `newTypeBindException` (cell address, field) are message formatting and are left out.
- The two public `toCell`/`toCellWithMap` entry points only pick where the value comes from (`getValue` or `getValueOfMap`). The field value is an input of `ToCell`.
- Date library calls. `SimpleDateFormat` parse/format, `TimeZone` lookup and `Calendar.getInstance` are foreign library calls. They are parameters, or a calendar recorded only by its time.
- `Utils.getLocale` and `convertTypeValue` are not part of this model. `Utils.getLocale` is a helper of the same library whose code is not shown. `convertTypeValue` is the factory's own abstract method, which each concrete date factory implements. Both are parameters: the locale text is kept as given in `FormatterConfig.locale`, and `convertTypeValue` is the `convert` function of `Parse`.
- `DateCellConverter` is not part of this model. Its `toObject`, `createDateFormat`/`parseDate`, `getDefaultDateConverterAnnotation` and `createTypeErrorMessageVars` are inputs of the calendar model.
- Formula cells. `Utils.setupCellFormula` is not part of this model: writing a formula is recorded as the formula annotation.
- Array handler. `ArrayCellHandler.handleOnLoading`/`handleOnSaving` are not part of this model, so the walk over the cells and its stop at a blank cell are not modelled. Loading takes the handler's result as an input. Saving ends with what is handed to the handler.
- Collection helpers. `Utils.convertListToCollection` (with the bean factory), `Utils.convertCollectionToList` and `Utils.asList` are not part of this model. The first and the last are parameters. `Utils.convertCollectionToList` is not: a collection's value is its items in iteration order, and `SaveProcess` hands those items over as they are.
- Address parsing. `CellPosition.of(String)` is a parameter.
- Reflection. `getCellConverter`, `Array.newInstance` and the field accessor are reflection. The container kind, the component type and "is a field formatter" are inputs; the bean field is a small object.
- ArrayCellProcessor errors: only the message key and the error's own variables are kept (the address; the attribute name, value and minimum; or the actual and expected types). The `property`/`anno` variables and `MessageBuilder` text are message formatting.
- The end-to-end default-value test drives the whole mapper through workbook files and converters for other types, so it is not modelled.
