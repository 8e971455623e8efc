/**
 * `BaseTableTemplate.populate_fields` (models.py): copy the entries of a dict onto a
 * record's attributes, naming each attribute by the converted (snake_case) key.
 *
 * A record's attributes are a map from attribute name to value: `hasattr` is map
 * membership, `getattr(...) is None` is `Null`, `setattr` is a map update. The dict
 * is the sequence of its items in iteration order (its keys are strings by type).
 */
module Records {
  import opened Common
  import opened Keys

  type Attributes = map<string, Value>

  /** One iteration of the loop: set the attribute the converted key names, if the
      record has it and it is `None` or `overwrite` is set. */
  function Assign(attrs: Attributes, item: (string, Value), overwrite: bool): Attributes {
    var name := ConvertKey(item.0);
    if name in attrs && (attrs[name] == Null || overwrite) then attrs[name := item.1] else attrs
  }

  /** The attributes after the loop has processed all of `data`, in order. */
  function Populate(attrs: Attributes, data: seq<(string, Value)>, overwrite: bool): Attributes
    decreases |data|
  {
    if data == [] then attrs
    else Assign(Populate(attrs, data[..|data| - 1], overwrite), data[|data| - 1], overwrite)
  }

  /** The values of the items whose key converts to `name`, in dict order. */
  function ValuesFor(data: seq<(string, Value)>, name: string): seq<Value>
    decreases |data|
  {
    if data == [] then []
    else
      var last := data[|data| - 1];
      ValuesFor(data[..|data| - 1], name) + (if ConvertKey(last.0) == name then [last.1] else [])
  }

  /** The first value of `vs` that is not `None`, or `None` if there is none. */
  function FirstNonNull(vs: seq<Value>): Value {
    if vs == [] then Null else if vs[0] != Null then vs[0] else FirstNonNull(vs[1..])
  }

  class TableRecord {
    var attributes: Attributes

    constructor (attributes: Attributes)
      ensures this.attributes == attributes
    {
      this.attributes := attributes;
    }

    /** `populate_fields(data_dict, overwrite)`; returns `self`. */
    method PopulateFields(data: seq<(string, Value)>, overwrite: bool) returns (r: TableRecord)
      modifies this
      ensures r == this
      ensures attributes == Populate(old(attributes), data, overwrite)
    {
      var i := 0;
      while i < |data|
        invariant 0 <= i <= |data|
        invariant attributes == Populate(old(attributes), data[..i], overwrite)
      {
        var key := data[i].0;
        var convertedKey := ConvertKey(key);
        if convertedKey in attributes && (attributes[convertedKey] == Null || overwrite) {
          attributes := attributes[convertedKey := data[i].1];
        }
        assert data[..i + 1][..i] == data[..i];
        i := i + 1;
      }
      assert data[..|data|] == data;
      r := this;
    }
  }

  // ---------------------------------------------------------------------------
  // Properties of the loop, stated on its specification function

  /** No attribute is created or removed: a key whose converted name is not an
      attribute of the record is skipped. */
  lemma {:induction false} PopulateKeepsAttributeNames(attrs: Attributes, data: seq<(string, Value)>, overwrite: bool)
    ensures Populate(attrs, data, overwrite).Keys == attrs.Keys
    decreases |data|
  {
    if data != [] {
      PopulateKeepsAttributeNames(attrs, data[..|data| - 1], overwrite);
    }
  }

  /** With `overwrite`, an attribute ends up with the value of the LAST item whose key
      converts to its name, and keeps its value when there is no such item. */
  lemma {:induction false} PopulateOverwriteLastWins(attrs: Attributes, data: seq<(string, Value)>, name: string)
    requires name in attrs
    ensures name in Populate(attrs, data, true)
    ensures var vs := ValuesFor(data, name);
      Populate(attrs, data, true)[name] == if vs == [] then attrs[name] else vs[|vs| - 1]
    decreases |data|
  {
    if data != [] {
      PopulateOverwriteLastWins(attrs, data[..|data| - 1], name);
    }
  }

  lemma {:induction false} FirstNonNullAppend(vs: seq<Value>, v: Value)
    ensures FirstNonNull(vs + [v]) == if FirstNonNull(vs) != Null then FirstNonNull(vs) else v
    decreases |vs|
  {
    if vs == [] {
      assert vs + [v] == [v];
    } else {
      assert (vs + [v])[1..] == vs[1..] + [v];
      FirstNonNullAppend(vs[1..], v);
    }
  }

  /** Without `overwrite`, an attribute that is not `None` keeps its value, and one that
      is `None` takes the FIRST non-`None` value among the items whose key converts to
      its name (a `None` value written first leaves it open for a later item). */
  lemma {:induction false} PopulateFillsOnlyNone(attrs: Attributes, data: seq<(string, Value)>, name: string)
    requires name in attrs
    ensures name in Populate(attrs, data, false)
    ensures Populate(attrs, data, false)[name]
         == if attrs[name] != Null then attrs[name] else FirstNonNull(ValuesFor(data, name))
    decreases |data|
  {
    if data != [] {
      var init := data[..|data| - 1];
      var last := data[|data| - 1];
      PopulateFillsOnlyNone(attrs, init, name);
      if ConvertKey(last.0) == name {
        FirstNonNullAppend(ValuesFor(init, name), last.1);
      } else {
        assert ValuesFor(data, name) == ValuesFor(init, name) + [] == ValuesFor(init, name);
        assert Populate(attrs, data, false)[name] == Populate(attrs, init, false)[name];
      }
    }
  }

  /** An attribute that no key names keeps its value, whatever `overwrite` is. */
  lemma {:induction false} PopulateLeavesOthers(attrs: Attributes, data: seq<(string, Value)>, overwrite: bool, name: string)
    requires name in attrs
    requires forall i :: 0 <= i < |data| ==> ConvertKey(data[i].0) != name
    ensures name in Populate(attrs, data, overwrite) && Populate(attrs, data, overwrite)[name] == attrs[name]
    decreases |data|
  {
    if data != [] {
      PopulateLeavesOthers(attrs, data[..|data| - 1], overwrite, name);
    }
  }

  /** Two keys that convert to the same name (such as `CreatedAt` and `created_at`):
      with `overwrite` the later one wins, without it the earlier one fills a `None`
      attribute. */
  lemma CollidingKeys(attrs: Attributes, k1: string, v1: Value, k2: string, v2: Value)
    requires ConvertKey(k1) in attrs && attrs[ConvertKey(k1)] == Null
    requires ConvertKey(k2) == ConvertKey(k1)
    requires v1 != Null
    ensures var n := ConvertKey(k1); var data := [(k1, v1), (k2, v2)];
      && n in Populate(attrs, data, true) && Populate(attrs, data, true)[n] == v2
      && n in Populate(attrs, data, false) && Populate(attrs, data, false)[n] == v1
  {
    var data := [(k1, v1), (k2, v2)];
    assert data[..1] == [(k1, v1)] && data[..1][..0] == [];
    forall overwrite: bool
      ensures Populate(attrs, data, overwrite)
           == Assign(Assign(attrs, (k1, v1), overwrite), (k2, v2), overwrite)
    {
      assert Populate(attrs, data[..1], overwrite) == Assign(attrs, (k1, v1), overwrite);
    }
  }
}
