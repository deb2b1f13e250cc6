/** The field processor for the array-cell annotation
    (com.gh.mygreen.xlsmapper.fieldprocessor.impl.ArrayCellProcessor): it binds
    a Collection or array field to a run of consecutive cells.

    Modelled here: the validation of the start position, the choice of the
    item class, the dispatch on the field's container kind, and the copy of the
    loaded items into a new array. The walk over the cells (the array-cell
    handler), address parsing and the conversion of a list into the field's
    collection class are inputs of the model. */
module ArrayCellProcessor {
  import opened Wrappers

  /** A 0-based cell address. */
  datatype CellPosition = CellPosition(row: nat, column: nat)

  /** A Java class, by its name. */
  type ClassRef = string

  const ObjectClass: ClassRef := "java.lang.Object"

  /** The attributes of the array-cell annotation that this processor reads. */
  datatype ArrayCellAnno = ArrayCellAnno(address: string, row: int, column: int, itemClass: ClassRef)

  datatype ContainerKind = CollectionKind | ArrayKind | OtherKind

  /** The field being bound: its name, its declared class, whether that class
      is a Collection, an array or neither, and its element type. */
  datatype Field = Field(name: string, fieldClass: ClassRef, kind: ContainerKind, componentType: ClassRef)

  /** The annotation errors the processor raises, with their variables. */
  datatype AnnoError =
    | InvalidAddress(address: string)
    | BelowMin(attrName: string, attrValue: int, min: int)
    | NotSupportType(actualType: ClassRef, expectedType: string)

  /** The message key of each error. */
  function MessageKey(e: AnnoError): string
  {
    match e
    case InvalidAddress(_) => "anno.attr.invalidAddress"
    case BelowMin(_, _, _) => "anno.attr.min"
    case NotSupportType(_, _) => "anno.notSupportType"
  }

  const ExpectedContainers: string := "Collection(List/Set) or Array"

  /** The start position: the parsed address when one is given, otherwise the
      row and the column, each at least 0, the row checked first.
      `parseAddress` is the address parser, `None` standing for its failure. */
  function GetCellPosition(anno: ArrayCellAnno, parseAddress: string -> Option<CellPosition>): (r: Result<CellPosition, AnnoError>)
    ensures anno.address != "" ==>
      (r.Success? <==> parseAddress(anno.address).Some?)
      && (r.Success? ==> r.value == parseAddress(anno.address).value)
      && (r.Failure? ==> r.error == InvalidAddress(anno.address))
    ensures anno.address == "" ==>
      (r.Success? <==> anno.row >= 0 && anno.column >= 0)
      && (r.Success? ==> r.value.row == anno.row && r.value.column == anno.column)
      && (anno.row < 0 ==> r == Failure(BelowMin("row", anno.row, 0)))
      && (anno.row >= 0 && anno.column < 0 ==> r == Failure(BelowMin("column", anno.column, 0)))
    ensures r.Failure? ==> MessageKey(r.error) == (if anno.address != "" then "anno.attr.invalidAddress" else "anno.attr.min")
  {
    if anno.address != "" then
      match parseAddress(anno.address)
      case Some(p) => Success(p)
      case None => Failure(InvalidAddress(anno.address))
    else if anno.row < 0 then
      Failure(BelowMin("row", anno.row, 0))
    else if anno.column < 0 then
      Failure(BelowMin("column", anno.column, 0))
    else
      Success(CellPosition(anno.row, anno.column))
  }

  /** The item class: the annotation's, unless it is left at `Object`, in
      which case the field's element type. */
  function ItemClass(anno: ArrayCellAnno, field: Field): (c: ClassRef)
    ensures c == anno.itemClass || c == field.componentType
    ensures anno.itemClass != ObjectClass ==> c == anno.itemClass
    ensures c == ObjectClass ==> field.componentType == ObjectClass
  {
    if anno.itemClass == ObjectClass then field.componentType else anno.itemClass
  }

  // ---------------------------------------------------------------------------
  // Loading

  /** The value of the bound field. */
  datatype FieldValue<V> = Unset | CollectionValue(items: seq<V>) | ArrayValue(elems: array<V>)

  /** The bean's field that the processor writes. */
  class FieldSlot<V> {
    var value: FieldValue<V>

    constructor ()
      ensures value == Unset
    {
      value := Unset;
    }
  }

  /** The load pass's record of the converters registered as field formatters. */
  class LoadingWork {
    var fieldFormatters: seq<(string, ClassRef)>

    constructor ()
      ensures fieldFormatters == []
    {
      fieldFormatters := [];
    }
  }

  /** A new array holding the loaded items, filled index by index. */
  method ToArray<V(0)>(items: seq<V>) returns (a: array<V>)
    ensures fresh(a)
    ensures a.Length == |items|
    ensures forall i :: 0 <= i < |items| ==> a[i] == items[i]
  {
    a := new V[|items|];
    for i := 0 to |items|
      invariant forall k :: 0 <= k < i ==> a[k] == items[k]
    {
      a[i] := items[i];
    }
  }

  /** Loads the field: an unsupported type or an invalid position is an error
      and changes nothing; otherwise the converter for the item class is
      registered as a field formatter when it is one, the handler reads the
      items, and a non-null result is stored as the field's collection or as a
      new array.
      `isFieldFormatter` tells whether the converter chosen for an item class
      is a field formatter; `handleOnLoading` is the handler's read; and
      `toCollection` turns the loaded list into the field's collection class. */
  method LoadProcess<V(0)>(field: Field, anno: ArrayCellAnno, slot: FieldSlot<V>, work: LoadingWork,
                           parseAddress: string -> Option<CellPosition>,
                           isFieldFormatter: ClassRef -> bool,
                           handleOnLoading: (ClassRef, CellPosition) -> Option<seq<V>>,
                           toCollection: seq<V> -> seq<V>) returns (err: Option<AnnoError>)
    modifies slot, work
    ensures field.kind == OtherKind ==>
      err == Some(NotSupportType(field.fieldClass, ExpectedContainers))
      && slot.value == old(slot.value) && work.fieldFormatters == old(work.fieldFormatters)
    ensures field.kind != OtherKind && GetCellPosition(anno, parseAddress).Failure? ==>
      err == Some(GetCellPosition(anno, parseAddress).error)
      && slot.value == old(slot.value) && work.fieldFormatters == old(work.fieldFormatters)
    ensures field.kind != OtherKind && GetCellPosition(anno, parseAddress).Success? ==>
      var item := ItemClass(anno, field);
      var loaded := handleOnLoading(item, GetCellPosition(anno, parseAddress).value);
      && err.None?
      && work.fieldFormatters == old(work.fieldFormatters) + (if isFieldFormatter(item) then [(field.name, item)] else [])
      && (loaded.None? ==> slot.value == old(slot.value))
      && (loaded.Some? && field.kind == CollectionKind ==> slot.value == CollectionValue(toCollection(loaded.value)))
      && (loaded.Some? && field.kind == ArrayKind ==>
            slot.value.ArrayValue? && fresh(slot.value.elems) && slot.value.elems[..] == loaded.value)
  {
    if field.kind == OtherKind {
      return Some(NotSupportType(field.fieldClass, ExpectedContainers));
    }
    var itemClass := ItemClass(anno, field);

    // loadValues
    var position := GetCellPosition(anno, parseAddress);
    if position.Failure? {
      return Some(position.error);
    }
    if isFieldFormatter(itemClass) {
      work.fieldFormatters := work.fieldFormatters + [(field.name, itemClass)];
    }
    var value := handleOnLoading(itemClass, position.value);

    if value.Some? {
      if field.kind == CollectionKind {
        slot.value := CollectionValue(toCollection(value.value));
      } else {
        var elems := ToArray(value.value);
        slot.value := ArrayValue(elems);
      }
    }
    err := None;
  }

  // ---------------------------------------------------------------------------
  // Saving

  /** What the processor hands to the array-cell handler for writing. */
  datatype SaveStep<V> = SaveStep(itemClass: ClassRef, position: CellPosition, items: seq<V>)

  /** Saving: an unsupported type is an error before anything else; a null
      collection is written as an empty list; an array's value goes through the
      array-to-list conversion `asList`; then the start position is validated.
      `current` is the field's value, a Collection or array given by its items. */
  function SaveProcess<V>(field: Field, anno: ArrayCellAnno, current: Option<seq<V>>,
                          parseAddress: string -> Option<CellPosition>,
                          asList: (Option<seq<V>>, ClassRef) -> seq<V>): (r: Result<SaveStep<V>, AnnoError>)
    ensures field.kind == OtherKind ==> r == Failure(NotSupportType(field.fieldClass, ExpectedContainers))
    ensures field.kind != OtherKind ==>
      (r.Success? <==> GetCellPosition(anno, parseAddress).Success?)
      && (r.Failure? ==> r.error == GetCellPosition(anno, parseAddress).error)
    ensures r.Success? ==>
      r.value.itemClass == ItemClass(anno, field)
      && r.value.position == GetCellPosition(anno, parseAddress).value
    ensures r.Success? && field.kind == CollectionKind ==>
      r.value.items == (if current.None? then [] else current.value)
    ensures r.Success? && field.kind == ArrayKind ==>
      r.value.items == asList(current, ItemClass(anno, field))
  {
    if field.kind == OtherKind then
      Failure(NotSupportType(field.fieldClass, ExpectedContainers))
    else
      var itemClass := ItemClass(anno, field);
      var list := if field.kind == CollectionKind then (if current.None? then [] else current.value)
                  else asList(current, itemClass);
      match GetCellPosition(anno, parseAddress)
      case Success(p) => Success(SaveStep(itemClass, p, list))
      case Failure(e) => Failure(e)
  }

  /** Saving refuses an unsupported field type with the same message key as
      loading, whose refusal is the first `ensures` of `LoadProcess`. */
  lemma UnsupportedTypeOnSave<V>(field: Field, anno: ArrayCellAnno, current: Option<seq<V>>,
                                 parseAddress: string -> Option<CellPosition>,
                                 asList: (Option<seq<V>>, ClassRef) -> seq<V>)
    requires field.kind == OtherKind
    ensures SaveProcess(field, anno, current, parseAddress, asList).Failure?
    ensures MessageKey(SaveProcess(field, anno, current, parseAddress, asList).error) == "anno.notSupportType"
  {
  }
}
