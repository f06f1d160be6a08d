/**
 * The column-configuration list: one entry per column the user can select, rename, give a
 * default, delete and reorder, with the position-addressed edits the table rows trigger.
 */
module ColumnConfig {
  import opened Json

  /** One row of the configuration table. */
  datatype KeyConfig = KeyConfig(
    jsonKey: string,       // the record property the column reads
    columnName: string,    // the header text; blank falls back to `jsonKey`
    isSelected: bool,      // whether the column is exported
    isCustom: bool,        // added by the user rather than found in the data
    defaultValue: string)  // rendered when a record has no value for `jsonKey`

  /** The property names of a configuration entry, and what can be stored in them. */
  datatype FieldName = JsonKey | ColumnName | IsSelected | IsCustom | DefaultValue
  datatype FieldValue = Text(text: string) | Flag(flag: bool)

  /** Text fields take text and flags take booleans: what the input controls deliver. */
  predicate WellTyped(f: FieldName, v: FieldValue)
  {
    if f == IsSelected || f == IsCustom then v.Flag? else v.Text?
  }

  /** `config[f]`. */
  function Get(c: KeyConfig, f: FieldName): (v: FieldValue)
    ensures WellTyped(f, v)
  {
    match f
    case JsonKey => Text(c.jsonKey)
    case ColumnName => Text(c.columnName)
    case IsSelected => Flag(c.isSelected)
    case IsCustom => Flag(c.isCustom)
    case DefaultValue => Text(c.defaultValue)
  }

  /** `{ ...config, [f]: v }`. */
  function Set(c: KeyConfig, f: FieldName, v: FieldValue): KeyConfig
    requires WellTyped(f, v)
  {
    match f
    case JsonKey => c.(jsonKey := v.text)
    case ColumnName => c.(columnName := v.text)
    case IsSelected => c.(isSelected := v.flag)
    case IsCustom => c.(isCustom := v.flag)
    case DefaultValue => c.(defaultValue := v.text)
  }

  /** Setting a field stores the value there and leaves every other field as it was. */
  lemma SetGet(c: KeyConfig, f: FieldName, v: FieldValue, g: FieldName)
    requires WellTyped(f, v)
    ensures Get(Set(c, f, v), g) == if g == f then v else Get(c, g)
  {
  }

  /** The entry built for a key found in the data. */
  function Initial(key: string): KeyConfig
  {
    KeyConfig(key, key, true, false, "")
  }

  /** `keys.map(key => ({ jsonKey: key, columnName: key, isSelected: true, … }))`. */
  function InitConfigs(keys: seq<string>): (r: seq<KeyConfig>)
    ensures |r| == |keys|
    ensures forall i :: 0 <= i < |keys| ==>
      r[i].jsonKey == keys[i] && r[i].columnName == keys[i] &&
      r[i].isSelected && !r[i].isCustom && r[i].defaultValue == ""
  {
    if keys == [] then [] else InitConfigs(keys[..|keys| - 1]) + [Initial(keys[|keys| - 1])]
  }

  function JsonKeys(cs: seq<KeyConfig>): (r: seq<string>)
    ensures |r| == |cs|
    ensures forall i :: 0 <= i < |cs| ==> r[i] == cs[i].jsonKey
  {
    if cs == [] then [] else JsonKeys(cs[..|cs| - 1]) + [cs[|cs| - 1].jsonKey]
  }

  /** The initial list reads exactly the keys it was built from, in the same order. */
  lemma InitConfigsKeys(keys: seq<string>)
    ensures JsonKeys(InitConfigs(keys)) == keys
  {
  }

  /** `handleKeyConfigChange(index, field, value)`: a copy with one field of one entry replaced. */
  function Update(cs: seq<KeyConfig>, index: nat, f: FieldName, v: FieldValue): (r: seq<KeyConfig>)
    requires index < |cs| && WellTyped(f, v)
    ensures |r| == |cs|
    ensures forall k :: 0 <= k < |cs| && k != index ==> r[k] == cs[k]
  {
    cs[index := Set(cs[index], f, v)]
  }

  /** After an update, the edited field of the edited entry holds the new value; every other
      field of it, and every other entry, is as before. */
  lemma UpdateOneField(cs: seq<KeyConfig>, index: nat, f: FieldName, v: FieldValue, k: nat, g: FieldName)
    requires index < |cs| && WellTyped(f, v) && k < |cs|
    ensures Get(Update(cs, index, f, v)[k], g) == if k == index && g == f then v else Get(cs[k], g)
  {
    if k == index { SetGet(cs[index], f, v, g); }
  }

  /** `cs.filter((_, i) => i !== index)`: drops the entry at position `index`, if there is one. */
  function DeleteAt<T>(cs: seq<T>, index: nat): (r: seq<T>)
    ensures |r| == if index < |cs| then |cs| - 1 else |cs|
  {
    if cs == [] then []
    else
      var n := |cs| - 1;
      DeleteAt(cs[..n], index) + (if n == index then [] else [cs[n]])
  }

  /** Deleting removes exactly the entry at `index` and keeps the rest in order; an index past
      the end removes nothing. */
  lemma {:induction false} DeleteAtSplice<T>(cs: seq<T>, index: nat)
    ensures index < |cs| ==> DeleteAt(cs, index) == cs[..index] + cs[index + 1..]
    ensures index >= |cs| ==> DeleteAt(cs, index) == cs
  {
    if cs != [] {
      var n := |cs| - 1;
      DeleteAtSplice(cs[..n], index);
      if index < n {
        assert cs[..n][..index] == cs[..index];
        assert cs[..n][index + 1..] + [cs[n]] == cs[index + 1..];
      } else if index == n {
        assert cs[..n][..index] == cs[..index];
        assert cs[index + 1..] == [];
      } else {
        assert cs[..n] + [cs[n]] == cs;
      }
    }
  }

  /** Deleting in range shortens the list by one and loses exactly that entry. */
  lemma DeleteAtContents<T>(cs: seq<T>, index: nat)
    requires index < |cs|
    ensures |DeleteAt(cs, index)| == |cs| - 1
    ensures forall k :: 0 <= k < index ==> DeleteAt(cs, index)[k] == cs[k]
    ensures forall k :: index <= k < |cs| - 1 ==> DeleteAt(cs, index)[k] == cs[k + 1]
    ensures multiset(DeleteAt(cs, index)) + multiset{cs[index]} == multiset(cs)
  {
    RemoveAtIsDeleteAt(cs, index);
    RemoveAtMultiset(cs, index);
  }

  /** The generated key of the next custom column: `custom_` followed by the new length. */
  function CustomKey(count: nat): string
  {
    "custom_" + NatToString(count + 1)
  }

  /** Different list lengths give different generated keys. */
  lemma CustomKeyInjective(m: nat, n: nat)
    ensures CustomKey(m) == CustomKey(n) <==> m == n
  {
    if CustomKey(m) == CustomKey(n) {
      assert CustomKey(m)[7..] == NatToString(m + 1);
      assert CustomKey(n)[7..] == NatToString(n + 1);
      NatToStringInjective(m + 1, n + 1);
    }
  }

  /** `handleAddCustomKey`: appends a blank, selected, custom entry. */
  function AddCustom(cs: seq<KeyConfig>): (r: seq<KeyConfig>)
    ensures |r| == |cs| + 1 && r[..|cs|] == cs
    ensures r[|cs|] == KeyConfig(CustomKey(|cs|), "", true, true, "")
  {
    cs + [KeyConfig(CustomKey(|cs|), "", true, true, "")]
  }

  /** Deleting the entry just added gives back the list as it was. */
  lemma DeleteUndoesAdd(cs: seq<KeyConfig>)
    ensures DeleteAt(AddCustom(cs), |cs|) == cs
  {
    DeleteAtSplice(AddCustom(cs), |cs|);
  }

  ghost predicate DistinctKeys(cs: seq<KeyConfig>)
  {
    forall i, j :: 0 <= i < j < |cs| ==> cs[i].jsonKey != cs[j].jsonKey
  }

  /** Adding keeps the keys distinct when the generated key is not in use yet. */
  lemma AddCustomFresh(cs: seq<KeyConfig>)
    requires DistinctKeys(cs)
    requires forall i :: 0 <= i < |cs| ==> cs[i].jsonKey != CustomKey(|cs|)
    ensures DistinctKeys(AddCustom(cs))
  {
  }

  /** The generated key names the length, not a counter, so it can repeat: add a column to a
      two-entry list, delete the first entry, add again, and both custom entries are
      `custom_3`. */
  lemma AddCustomCanRepeat()
    ensures var cs := [Initial("a"), Initial("b")];
      DistinctKeys(cs) && !DistinctKeys(AddCustom(DeleteAt(AddCustom(cs), 0)))
  {
    var cs := [Initial("a"), Initial("b")];
    var once := AddCustom(cs);
    DeleteAtSplice(once, 0);
    var twice := AddCustom(DeleteAt(once, 0));
    assert twice[1].jsonKey == CustomKey(2) == twice[2].jsonKey;
  }

  /** `splice(index, 1)`: the list without the entry at `index`. */
  function RemoveAt<T>(cs: seq<T>, index: nat): (r: seq<T>)
    requires index < |cs|
    ensures |r| == |cs| - 1
    ensures forall k :: 0 <= k < index ==> r[k] == cs[k]
    ensures forall k :: index <= k < |r| ==> r[k] == cs[k + 1]
  {
    cs[..index] + cs[index + 1..]
  }

  lemma RemoveAtMultiset<T>(cs: seq<T>, index: nat)
    requires index < |cs|
    ensures multiset(RemoveAt(cs, index)) + multiset{cs[index]} == multiset(cs)
  {
    assert cs == cs[..index] + [cs[index]] + cs[index + 1..];
  }

  /** `splice(index, 0, x)`: the list with `x` inserted before position `index`. */
  function InsertAt<T>(cs: seq<T>, index: nat, x: T): (r: seq<T>)
    requires index <= |cs|
    ensures |r| == |cs| + 1 && r[index] == x
  {
    cs[..index] + [x] + cs[index..]
  }

  lemma InsertAtMultiset<T>(cs: seq<T>, index: nat, x: T)
    requires index <= |cs|
    ensures multiset(InsertAt(cs, index, x)) == multiset(cs) + multiset{x}
  {
    assert cs == cs[..index] + cs[index..];
  }

  /** Taking an entry out again where it was inserted gives back the list. */
  lemma RemoveInserted<T>(cs: seq<T>, index: nat, x: T)
    requires index <= |cs|
    ensures RemoveAt(InsertAt(cs, index, x), index) == cs
  {
    var r := InsertAt(cs, index, x);
    assert r[..index] == cs[..index];
    assert r[index + 1..] == cs[index..];
  }

  /** Putting a removed entry back where it was gives back the list. */
  lemma InsertRemoved<T>(cs: seq<T>, index: nat)
    requires index < |cs|
    ensures InsertAt(RemoveAt(cs, index), index, cs[index]) == cs
  {
    var r := RemoveAt(cs, index);
    assert r[..index] == cs[..index];
    assert r[index..] == cs[index + 1..];
  }

  /** `handleDrop`: the entry at `source` is taken out and put back in at `target`. */
  function Move<T>(cs: seq<T>, source: nat, target: nat): (r: seq<T>)
    requires source < |cs| && target < |cs|
    ensures source == target ==> r == cs
    ensures |r| == |cs| && multiset(r) == multiset(cs)
    ensures r[target] == cs[source]
  {
    if source == target then cs
    else
      RemoveAtMultiset(cs, source);
      InsertAtMultiset(RemoveAt(cs, source), target, cs[source]);
      InsertAt(RemoveAt(cs, source), target, cs[source])
  }

  lemma RemoveAtIsDeleteAt<T>(cs: seq<T>, index: nat)
    requires index < |cs|
    ensures RemoveAt(cs, index) == DeleteAt(cs, index)
  {
    DeleteAtSplice(cs, index);
  }

  /** Apart from the moved entry, the others keep their relative order. */
  lemma MoveKeepsOthers<T>(cs: seq<T>, source: nat, target: nat)
    requires source < |cs| && target < |cs|
    ensures DeleteAt(Move(cs, source, target), target) == DeleteAt(cs, source)
  {
    var r := Move(cs, source, target);
    RemoveAtIsDeleteAt(r, target);
    RemoveAtIsDeleteAt(cs, source);
    if source != target {
      RemoveInserted(RemoveAt(cs, source), target, cs[source]);
    } else {
      InsertRemoved(cs, source);
    }
  }

  /** Dragging the entry back to where it came from restores the list. */
  lemma MoveBack<T>(cs: seq<T>, source: nat, target: nat)
    requires source < |cs| && target < |cs|
    ensures Move(Move(cs, source, target), target, source) == cs
  {
    if source != target {
      RemoveInserted(RemoveAt(cs, source), target, cs[source]);
      InsertRemoved(cs, source);
    }
  }

  lemma MoveThenRemove<T>(cs: seq<T>)
    requires |cs| >= 3
    ensures RemoveAt(Move(cs, 0, 2), 0) == Move(RemoveAt(cs, 1), 1, 0)
  {
    MoveFirstThenRemove(cs);
    RemoveThenMoveFirst(cs);
  }

  lemma MoveFirstThenRemove<T>(cs: seq<T>)
    requires |cs| >= 3
    ensures RemoveAt(Move(cs, 0, 2), 0) == [cs[2], cs[0]] + cs[3..]
  {
    MoveFromFront(cs, 2);
    var m := Move(cs, 0, 2);
    assert m == [cs[1], cs[2], cs[0]] + cs[3..];
    assert RemoveAt(m, 0) == m[1..];
  }

  /** Moving the first entry back lets the entries up to the target move up by one. */
  lemma MoveFromFront<T>(cs: seq<T>, target: nat)
    requires 0 < target < |cs|
    ensures Move(cs, 0, target) == cs[1..target + 1] + [cs[0]] + cs[target + 1..]
  {
    var r := RemoveAt(cs, 0);
    assert r == cs[1..];
    assert r[..target] == cs[1..target + 1];
    assert r[target..] == cs[target + 1..];
  }


  lemma RemoveThenMoveFirst<T>(cs: seq<T>)
    requires |cs| >= 3
    ensures Move(RemoveAt(cs, 1), 1, 0) == [cs[2], cs[0]] + cs[3..]
  {
    var d := RemoveAt(cs, 1);
    RemoveSecondTwice(cs);
    MoveToFront(d, 1);
  }

  lemma RemoveSecondTwice<T>(cs: seq<T>)
    requires |cs| >= 3
    ensures |RemoveAt(cs, 1)| >= 2 && RemoveAt(cs, 1)[1] == cs[2]
    ensures RemoveAt(RemoveAt(cs, 1), 1) == [cs[0]] + cs[3..]
  {
    var d := RemoveAt(cs, 1);
    assert d[2..] == cs[3..];
  }

  /** Moving an entry to the front puts it before the others, which keep their order. */
  lemma MoveToFront<T>(cs: seq<T>, source: nat)
    requires 0 < source < |cs|
    ensures Move(cs, source, 0) == [cs[source]] + RemoveAt(cs, source)
  {
    var r := RemoveAt(cs, source);
    assert r[..0] + [cs[source]] + r[0..] == [cs[source]] + r;
  }



  /** Moving entry 0 to position 2 and then deleting position 0 gives the same list as
      deleting entry 1 and then moving the original entry 2 to the front. */
  lemma MoveThenDelete<T>(cs: seq<T>)
    requires |cs| >= 3
    ensures DeleteAt(Move(cs, 0, 2), 0) == Move(DeleteAt(cs, 1), 1, 0)
  {
    MoveThenRemove(cs);
    RemoveAtIsDeleteAt(Move(cs, 0, 2), 0);
    RemoveAtIsDeleteAt(cs, 1);
  }
}
