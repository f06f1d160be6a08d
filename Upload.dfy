/**
 * Ingestion of a batch of uploaded files: the all-or-nothing check of every file, the
 * concatenation of their arrays into one record list, and the first-seen-ordered union of
 * the records' keys.
 */
module Upload {
  import opened Wrappers
  import opened Json

  /** What reading one uploaded file yields. */
  datatype FileResult =
    | ReadFailed               // the reader's `onerror` fired
    | ParseFailed              // `JSON.parse` threw
    | Parsed(value: JsonValue)

  /** Why a batch was rejected, naming the position of the file in the batch. */
  datatype LoadError =
    | ReadError(file: nat)
    | SyntaxError(file: nat)
    | NotAnArray(file: nat)
    | KeysOfNull(file: nat)    // `Object.keys(null)` threw for a null record

  /** The failure reading file number `i` reports, if any. */
  function FileError(i: nat, f: FileResult): (r: Option<LoadError>)
    ensures r.None? <==> f.Parsed? && f.value.JArray? && JNull !in f.value.elems
  {
    match f
    case ReadFailed => Some(ReadError(i))
    case ParseFailed => Some(SyntaxError(i))
    case Parsed(v) =>
      if !v.JArray? then Some(NotAnArray(i))
      else if JNull in v.elems then Some(KeysOfNull(i))
      else None
  }

  /** The error left over once every file has been read: each failing file overwrites the
      one before it, so it is the failure of the last failing file. */
  function LastError(files: seq<FileResult>): (r: Option<LoadError>)
    ensures r.None? <==> forall i :: 0 <= i < |files| ==> FileError(i, files[i]).None?
    ensures r.Some? ==> exists i :: 0 <= i < |files| && FileError(i, files[i]) == r &&
                                    (forall j :: i < j < |files| ==> FileError(j, files[j]).None?)
  {
    if files == [] then None
    else
      var n := |files| - 1;
      var e := FileError(n, files[n]);
      if e.Some? then e else LastError(files[..n])
  }

  /** The arrays of the files that parsed to an array, in batch order. */
  function Arrays(files: seq<FileResult>): (r: seq<seq<JsonValue>>)
  {
    if files == [] then []
    else
      var n := |files| - 1;
      var rest := Arrays(files[..n]);
      if files[n].Parsed? && files[n].value.JArray? then rest + [files[n].value.elems] else rest
  }

  /** The result of ingesting a batch: every file's array, in batch order, or the error. */
  function Ingest(files: seq<FileResult>): (r: Result<seq<seq<JsonValue>>, LoadError>)
    ensures r.Err? <==> exists i :: 0 <= i < |files| && FileError(i, files[i]).Some?
    ensures r.Err? ==> Some(r.error) == LastError(files)
    ensures r.Ok? ==> |r.value| == |files|
    ensures r.Ok? ==> forall i :: 0 <= i < |files| ==>
      files[i].Parsed? && files[i].value.JArray? && r.value[i] == files[i].value.elems
  {
    match LastError(files)
    case Some(e) => Err(e)
    case None => AllParsedArrays(files); Ok(Arrays(files))
  }

  lemma {:induction false} AllParsedArrays(files: seq<FileResult>)
    requires forall i :: 0 <= i < |files| ==> FileError(i, files[i]).None?
    ensures |Arrays(files)| == |files|
    ensures forall i :: 0 <= i < |files| ==>
      files[i].Parsed? && files[i].value.JArray? && Arrays(files)[i] == files[i].value.elems
  {
    if files != [] {
      var n := |files| - 1;
      assert forall i :: 0 <= i < n ==> files[..n][i] == files[i];
      assert FileError(n, files[n]).None?;
      AllParsedArrays(files[..n]);
    }
  }

  /** A batch without a failing file holds no null record: a null would have made
      `Object.keys` throw while its keys were collected. */
  lemma {:induction false} ArraysHaveNoNull(files: seq<FileResult>)
    requires forall i :: 0 <= i < |files| ==> FileError(i, files[i]).None?
    ensures JNull !in Flatten(Arrays(files))
  {
    if files != [] {
      var n := |files| - 1;
      assert forall i :: 0 <= i < n ==> files[..n][i] == files[i];
      assert FileError(n, files[n]).None?;
      ArraysHaveNoNull(files[..n]);
      var a, e := Arrays(files[..n]), files[n].value.elems;
      assert (a + [e])[..|a|] == a;
      assert Flatten(Arrays(files)) == Flatten(a) + e;
    }
  }

  /** `parsedData.flat()`: the arrays concatenated in order. */
  function Flatten<T>(xss: seq<seq<T>>): (r: seq<T>)
  {
    if xss == [] then [] else Flatten(xss[..|xss| - 1]) + xss[|xss| - 1]
  }

  function SumLengths<T>(xss: seq<seq<T>>): nat
  {
    if xss == [] then 0 else SumLengths(xss[..|xss| - 1]) + |xss[|xss| - 1]|
  }

  /** The flattened list holds as many records as all files together. */
  lemma {:induction false} FlattenLength<T>(xss: seq<seq<T>>)
    ensures |Flatten(xss)| == SumLengths(xss)
  {
    if xss != [] { FlattenLength(xss[..|xss| - 1]); }
  }

  /** Flattening respects concatenation: file order then record order. */
  lemma {:induction false} FlattenAppend<T>(xss: seq<seq<T>>, yss: seq<seq<T>>)
    ensures Flatten(xss + yss) == Flatten(xss) + Flatten(yss)
  {
    if yss == [] {
      assert xss + yss == xss;
    } else {
      var zss, n := xss + yss, |yss| - 1;
      assert zss[..|zss| - 1] == xss + yss[..n];
      assert zss[|zss| - 1] == yss[n];
      FlattenAppend(xss, yss[..n]);
      calc {
        Flatten(zss);
        Flatten(xss + yss[..n]) + yss[n];
        Flatten(xss) + Flatten(yss[..n]) + yss[n];
        Flatten(xss) + Flatten(yss);
      }
    }
  }

  /** Record `k` of file `i` sits in the flattened list after all records of the files before it. */
  lemma {:induction false} FlattenIndex<T>(xss: seq<seq<T>>, i: nat, k: nat)
    requires i < |xss| && k < |xss[i]|
    ensures SumLengths(xss[..i]) + k < |Flatten(xss)|
    ensures Flatten(xss)[SumLengths(xss[..i]) + k] == xss[i][k]
  {
    var n := |xss| - 1;
    assert xss[..n + 1] == xss;
    FlattenLength(xss[..i]);
    FlattenLength(xss[..n]);
    if i == n {
      assert xss[..i] == xss[..n];
    } else {
      assert xss[..n][..i] == xss[..i];
      FlattenIndex(xss[..n], i, k);
    }
  }

  /** The keys of one record as `Object.keys` lists them (none for a null record). */
  function RecordKeys(v: JsonValue): seq<string>
  {
    OwnKeys(v).GetOr([])
  }

  /** The lists `f(x)` of the elements of `xs`, concatenated in order. */
  function FlatMap<T, U>(f: T -> seq<U>, xs: seq<T>): seq<U>
  {
    if xs == [] then [] else FlatMap(f, xs[..|xs| - 1]) + f(xs[|xs| - 1])
  }

  lemma {:induction false} FlatMapAppend<T, U>(f: T -> seq<U>, xs: seq<T>, ys: seq<T>)
    ensures FlatMap(f, xs + ys) == FlatMap(f, xs) + FlatMap(f, ys)
  {
    if ys == [] {
      assert xs + ys == xs;
    } else {
      var zs, n := xs + ys, |ys| - 1;
      assert zs[..|zs| - 1] == xs + ys[..n];
      assert zs[|zs| - 1] == ys[n];
      FlatMapAppend(f, xs, ys[..n]);
      calc {
        FlatMap(f, zs);
        FlatMap(f, xs + ys[..n]) + f(ys[n]);
        FlatMap(f, xs) + FlatMap(f, ys[..n]) + f(ys[n]);
        FlatMap(f, xs) + FlatMap(f, ys);
      }
    }
  }

  lemma {:induction false} FlatMapMembership<T, U>(f: T -> seq<U>, xs: seq<T>, u: U)
    ensures u in FlatMap(f, xs) <==> exists i :: 0 <= i < |xs| && u in f(xs[i])
  {
    if xs != [] {
      var n := |xs| - 1;
      FlatMapMembership(f, xs[..n], u);
      assert forall i :: 0 <= i < n ==> xs[..n][i] == xs[i];
    }
  }

  /** All keys of all records in visiting order, repetitions included. */
  function KeysFlat(records: seq<JsonValue>): seq<string>
  {
    FlatMap(RecordKeys, records)
  }

  lemma KeysFlatAppend(xs: seq<JsonValue>, ys: seq<JsonValue>)
    ensures KeysFlat(xs + ys) == KeysFlat(xs) + KeysFlat(ys)
  {
    FlatMapAppend(RecordKeys, xs, ys);
  }

  lemma KeysFlatPrefix(items: seq<JsonValue>, j: nat)
    requires j < |items|
    ensures KeysFlat(items[..j + 1]) == KeysFlat(items[..j]) + RecordKeys(items[j])
  {
    assert items[..j + 1][..j] == items[..j];
  }

  /** A key is visited exactly when some record has it. */
  lemma KeysFlatMembership(records: seq<JsonValue>, key: string)
    ensures key in KeysFlat(records) <==> exists i :: 0 <= i < |records| && key in RecordKeys(records[i])
  {
    FlatMapMembership(RecordKeys, records, key);
  }

  /** Insertion into a JavaScript `Set`, element by element: the elements in order of first
      occurrence, each once. */
  function Dedup(s: seq<string>): (r: seq<string>)
  {
    if s == [] then []
    else
      var d := Dedup(s[..|s| - 1]);
      if s[|s| - 1] in d then d else d + [s[|s| - 1]]
  }

  /** `Array.from(allKeys)` once every key of every record has been added. */
  function KeyUnion(records: seq<JsonValue>): seq<string>
  {
    Dedup(KeysFlat(records))
  }

  ghost predicate NoDuplicates(s: seq<string>)
  {
    forall i, j :: 0 <= i < j < |s| ==> s[i] != s[j]
  }

  /** Position of the first occurrence of `x` in `s`. */
  function FirstIndex(s: seq<string>, x: string): (r: nat)
    requires x in s
    ensures r < |s| && s[r] == x && x !in s[..r]
  {
    if s[0] == x then 0 else FirstIndex(s[1..], x) + 1
  }

  lemma {:induction false} FirstIndexSnoc(s: seq<string>, y: string, x: string)
    requires x in s
    ensures FirstIndex(s + [y], x) == FirstIndex(s, x)
  {
    if s[0] != x {
      assert (s + [y])[1..] == s[1..] + [y];
      FirstIndexSnoc(s[1..], y, x);
    }
  }

  /** The union holds each key once, the keys that occur and no others, ordered by first
      occurrence. */
  lemma {:induction false} DedupSpec(s: seq<string>)
    ensures NoDuplicates(Dedup(s))
    ensures forall x :: x in Dedup(s) <==> x in s
    ensures forall i, j :: 0 <= i < j < |Dedup(s)| ==>
      Dedup(s)[i] in s && Dedup(s)[j] in s && FirstIndex(s, Dedup(s)[i]) < FirstIndex(s, Dedup(s)[j])
  {
    if s != [] {
      var n := |s| - 1;
      var p, x := s[..n], s[n];
      assert s == p + [x];
      DedupSpec(p);
      var d := Dedup(p);
      forall y | y in d ensures FirstIndex(s, y) == FirstIndex(p, y) {
        FirstIndexSnoc(p, x, y);
      }
      if x !in d {
        assert x !in p;
        assert FirstIndex(s, x) == n;
      }
    }
  }

  /** The key union of a record list, stated outright: duplicate-free, exactly the keys some
      record has, and ordered by first occurrence in record order then key order. */
  lemma KeyUnionSpec(records: seq<JsonValue>)
    ensures NoDuplicates(KeyUnion(records))
    ensures forall key :: key in KeyUnion(records) <==>
      exists i :: 0 <= i < |records| && key in RecordKeys(records[i])
    ensures forall i, j :: 0 <= i < j < |KeyUnion(records)| ==>
      KeyUnion(records)[i] in KeysFlat(records) && KeyUnion(records)[j] in KeysFlat(records) &&
      FirstIndex(KeysFlat(records), KeyUnion(records)[i]) < FirstIndex(KeysFlat(records), KeyUnion(records)[j])
  {
    DedupSpec(KeysFlat(records));
    forall key ensures key in KeyUnion(records) <==>
      exists i :: 0 <= i < |records| && key in RecordKeys(records[i])
    {
      KeysFlatMembership(records, key);
    }
  }

  /** `keys.forEach(key => allKeys.add(key))` for the keys of one record. */
  method AddKeys(allKeys: seq<string>, keys: seq<string>, ghost seen: seq<string>) returns (r: seq<string>)
    ensures allKeys == Dedup(seen) ==> r == Dedup(seen + keys)
  {
    r := allKeys;
    var k := 0;
    assert keys[..0] == [];
    assert seen + keys[..0] == seen;
    while k < |keys|
      invariant 0 <= k <= |keys|
      invariant allKeys == Dedup(seen) ==> r == Dedup(seen + keys[..k])
    {
      assert seen + keys[..k + 1] == (seen + keys[..k]) + [keys[k]];
      if keys[k] !in r {
        r := r + [keys[k]];
      }
      k := k + 1;
    }
    assert keys[..k] == keys;
  }

  /** `data.forEach(item => Object.keys(item).forEach(…))` over the records of one file;
      `threw` reports the TypeError of a null record, which ends the walk. */
  method AddRecordKeys(allKeys: seq<string>, items: seq<JsonValue>, ghost seen: seq<string>)
    returns (r: seq<string>, threw: bool)
    ensures threw <==> JNull in items
    ensures !threw && allKeys == Dedup(seen) ==> r == Dedup(seen + KeysFlat(items))
  {
    r, threw := allKeys, false;
    ghost var good := allKeys == Dedup(seen);
    var j := 0;
    assert seen + KeysFlat(items[..0]) == seen by { assert items[..0] == []; }
    while j < |items| && !threw
      invariant 0 <= j <= |items|
      invariant threw ==> j < |items| && items[j].JNull?
      invariant !threw ==> forall k :: 0 <= k < j ==> !items[k].JNull?
      invariant !threw && good ==> r == Dedup(seen + KeysFlat(items[..j]))
      decreases |items| - j, if threw then 0 else 1
    {
      var keys := OwnKeys(items[j]);
      if keys.None? {
        threw := true;
      } else {
        ghost var before := seen + KeysFlat(items[..j]);
        KeysFlatStep(seen, items, j);
        assert keys.value == RecordKeys(items[j]);
        r := AddKeys(r, keys.value, before);
        j := j + 1;
      }
    }
    if threw {
      assert items[j] == JNull;
    } else {
      assert items[..j] == items;
      assert JNull !in items;
    }
  }

  lemma KeysFlatStep(seen: seq<string>, items: seq<JsonValue>, j: nat)
    requires j < |items|
    ensures seen + KeysFlat(items[..j + 1]) == (seen + KeysFlat(items[..j])) + RecordKeys(items[j])
  {
    KeysFlatPrefix(items, j);
  }

  /**
   * The reading loop of `handleFileUpload`: every file is read in batch order; a failure
   * overwrites `error`; the keys of each record of a good file go into `allKeys` as into a
   * `Set`, and the array into `parsedData`.
   */
  method ReadBatch(files: seq<FileResult>)
    returns (parsedData: seq<seq<JsonValue>>, allKeys: seq<string>, error: Option<LoadError>)
    ensures error == LastError(files)
    ensures error.None? ==> parsedData == Arrays(files) && allKeys == KeyUnion(Flatten(parsedData))
  {
    parsedData, allKeys, error := [], [], None;
    var i := 0;
    while i < |files|
      invariant 0 <= i <= |files|
      invariant error == LastError(files[..i])
      invariant error.None? ==> parsedData == Arrays(files[..i]) && allKeys == KeyUnion(Flatten(parsedData))
    {
      assert files[..i + 1][..i] == files[..i];
      match files[i] {
        case ReadFailed =>
          error := Some(ReadError(i));
        case ParseFailed =>
          error := Some(SyntaxError(i));
        case Parsed(data) =>
          if !data.JArray? {
            error := Some(NotAnArray(i));
          } else {
            var items := data.elems;
            ghost var seen := KeysFlat(Flatten(parsedData));
            var threw;
            allKeys, threw := AddRecordKeys(allKeys, items, seen);
            if threw {
              error := Some(KeysOfNull(i));
            } else {
              if error.None? {
                assert Flatten(parsedData + [items]) == Flatten(parsedData) + items by {
                  assert (parsedData + [items])[..|parsedData|] == parsedData;
                }
                KeysFlatAppend(Flatten(parsedData), items);
              }
              parsedData := parsedData + [items];
            }
          }
      }
      i := i + 1;
    }
    assert files[..|files|] == files;
  }
}
