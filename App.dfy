/**
 * The converter component's state and its event handlers. Each handler is a method that
 * reassigns the fields React would re-render from; the logic they apply lives in the
 * Upload, ColumnConfig and CsvExport modules.
 */
module App {
  import opened Wrappers
  import opened Json
  import opened Upload
  import opened ColumnConfig
  import opened CsvExport

  /** The status line under the buttons, by kind rather than by wording. */
  datatype Message =
    | NoMessage
    | UploadCanceled
    | LoadFailed(cause: LoadError)
    | Loaded(files: nat, items: nat, keys: nat)
    | RowDeleted
    | CustomColumnAdded
    | ColumnsReordered
    | ExportFailed(reason: ExportError)
    | CsvDownloaded
    | Cleared

  class AppState {
    var jsonData: seq<seq<JsonValue>>      // the arrays of the last batch loaded, one per file
    var mergedJson: seq<JsonValue>         // those arrays concatenated
    var dynamicKeys: seq<string>           // the union of the records' keys
    var useCustomKeys: bool                // whether the configuration table drives the export
    var customKeyConfigs: seq<KeyConfig>   // the configuration table
    var message: Message

    /** The loaded records and the key list always describe the same batch, and no record
        is null (a batch with one is rejected). */
    ghost predicate Valid()
      reads this
    {
      mergedJson == Flatten(jsonData) && dynamicKeys == KeyUnion(mergedJson) && JNull !in mergedJson
    }

    /** Everything but the message. */
    ghost function Data(): (seq<seq<JsonValue>>, seq<JsonValue>, seq<string>, bool, seq<KeyConfig>)
      reads this
    {
      (jsonData, mergedJson, dynamicKeys, useCustomKeys, customKeyConfigs)
    }

    constructor ()
      ensures Valid()
      ensures jsonData == [] && mergedJson == [] && dynamicKeys == [] && !useCustomKeys
      ensures customKeyConfigs == [] && message == NoMessage
    {
      jsonData, mergedJson, dynamicKeys := [], [], [];
      useCustomKeys, customKeyConfigs, message := false, [], NoMessage;
    }

    /** `handleFileUpload`: an empty selection and a batch with any failing file leave the data
        as it was; a good batch replaces the records, the keys and the configuration table. */
    method HandleFileUpload(files: seq<FileResult>)
      requires Valid()
      modifies this
      ensures Valid()
      ensures files == [] ==> Data() == old(Data()) && message == UploadCanceled
      ensures files != [] && Ingest(files).Err? ==>
        Data() == old(Data()) && message == LoadFailed(Ingest(files).error)
      ensures files != [] && Ingest(files).Ok? ==>
        jsonData == Ingest(files).value &&
        customKeyConfigs == InitConfigs(dynamicKeys) &&
        useCustomKeys == old(useCustomKeys) &&
        |mergedJson| == SumLengths(jsonData) &&
        NoDuplicates(dynamicKeys) &&
        message == Loaded(|files|, |mergedJson|, |dynamicKeys|)
    {
      if |files| == 0 {
        message := UploadCanceled;
        return;
      }
      var parsedData, allKeys, error := ReadBatch(files);
      if error.Some? {
        message := LoadFailed(error.value);
        return;
      }
      var merged := Flatten(parsedData);
      ArraysHaveNoNull(files);
      FlattenLength(parsedData);
      KeyUnionSpec(merged);
      jsonData := parsedData;
      mergedJson := merged;
      dynamicKeys := allKeys;
      customKeyConfigs := InitConfigs(allKeys);
      message := Loaded(|files|, |merged|, |allKeys|);
    }

    /** `handleCustomKeysToggle`. */
    method HandleCustomKeysToggle()
      requires Valid()
      modifies this`useCustomKeys, this`message
      ensures Valid()
      ensures useCustomKeys == !old(useCustomKeys) && message == NoMessage
    {
      useCustomKeys := !useCustomKeys;
      message := NoMessage;
    }

    /** `handleKeyConfigChange(index, field, value)`, as the table's inputs call it. */
    method HandleKeyConfigChange(index: nat, field: FieldName, value: FieldValue)
      requires Valid() && index < |customKeyConfigs| && WellTyped(field, value)
      modifies this`customKeyConfigs
      ensures Valid()
      ensures customKeyConfigs == Update(old(customKeyConfigs), index, field, value)
    {
      customKeyConfigs := Update(customKeyConfigs, index, field, value);
    }

    /** `handleDeleteRow(index)`. */
    method HandleDeleteRow(index: nat)
      requires Valid()
      modifies this`customKeyConfigs, this`message
      ensures Valid()
      ensures customKeyConfigs == DeleteAt(old(customKeyConfigs), index) && message == RowDeleted
    {
      customKeyConfigs := DeleteAt(customKeyConfigs, index);
      message := RowDeleted;
    }

    /** `handleAddCustomKey`. */
    method HandleAddCustomKey()
      requires Valid()
      modifies this`customKeyConfigs, this`message
      ensures Valid()
      ensures customKeyConfigs == AddCustom(old(customKeyConfigs)) && message == CustomColumnAdded
    {
      customKeyConfigs := AddCustom(customKeyConfigs);
      message := CustomColumnAdded;
    }

    /** `handleDrop(index)` for a drag that started on row `source`. */
    method HandleDrop(source: nat, index: nat)
      requires Valid() && source < |customKeyConfigs| && index < |customKeyConfigs|
      modifies this`customKeyConfigs, this`message
      ensures Valid()
      ensures source == index ==> customKeyConfigs == old(customKeyConfigs) && message == old(message)
      ensures source != index ==>
        customKeyConfigs == Move(old(customKeyConfigs), source, index) && message == ColumnsReordered
    {
      if source != index {
        customKeyConfigs := Move(customKeyConfigs, source, index);
        message := ColumnsReordered;
      }
    }

    /** `handleConvertToCsv`: returns the text handed to the download, if any; only the
        message changes. */
    method HandleConvertToCsv(numberText: NumberText) returns (download: Option<string>)
      requires Valid()
      modifies this`message
      ensures Valid()
      ensures var r := ConvertToCsv(mergedJson, dynamicKeys, customKeyConfigs, useCustomKeys, numberText);
        (r.Ok? ==> download == Some(r.value) && message == CsvDownloaded) &&
        (r.Err? ==> download == None && message == ExportFailed(r.error))
    {
      match ConvertToCsv(mergedJson, dynamicKeys, customKeyConfigs, useCustomKeys, numberText) {
        case Ok(csv) =>
          download := Some(csv);
          message := CsvDownloaded;
        case Err(e) =>
          download := None;
          message := ExportFailed(e);
      }
    }

    /** `handleClearAll`. */
    method HandleClearAll()
      modifies this
      ensures Valid()
      ensures jsonData == [] && mergedJson == [] && dynamicKeys == [] && !useCustomKeys
      ensures customKeyConfigs == [] && message == Cleared
    {
      jsonData, mergedJson, dynamicKeys := [], [], [];
      customKeyConfigs, useCustomKeys := [], false;
      message := Cleared;
    }
  }
}
