/**
 Records as table entities (zdrovena/common/shipping_store.py and damage_store.py, _serialize,
 _deserialize and the merge patch of update_draft). json.dumps and json.loads are a codec given from
 outside; all that is used of it is that it loads what it dumped and never dumps the empty text.
 */
module TableEntity {
  import opened Prelude

  /** A column value: None, a boolean, a number, a text, or a nested dict or list. */
  datatype Value<T> = Null | Bool(b: bool) | Number(n: int) | Text(s: string) | Nested(t: T)

  /** `loads` gives the dict or list a text decodes to, and None for anything else. */
  datatype Codec<!T> = Codec(dumps: T -> string, loads: string -> Option<T>)

  ghost predicate Faithful<T(!new)>(c: Codec<T>) {
    forall t :: c.dumps(t) != "" && c.loads(c.dumps(t)) == Some(t)
  }

  type Columns<T> = map<string, Value<T>>

  const RESERVED: set<string> := {"PartitionKey", "RowKey", "etag", "Timestamp"}

  function Encode<T>(c: Codec<T>, v: Value<T>): Value<T> {
    match v
    case Nested(t) => Text(c.dumps(t))
    case Null => Text("")
    case _ => v
  }

  function Decode<T>(c: Codec<T>, v: Value<T>): Value<T> {
    match v
    case Text(s) =>
      if s == "" then Null
      else (match c.loads(s) case Some(t) => Nested(t) case None => v)
    case _ => v
  }

  /** The columns of a record restricted to some keys, encoded. */
  function Encoded<T>(c: Codec<T>, record: Columns<T>, keys: set<string>): Columns<T> {
    map k | k in record && k in keys && k != "id" :: Encode(c, record[k])
  }

  function Serialized<T>(c: Codec<T>, partition: string, record: Columns<T>): Columns<T>
    requires "id" in record
  {
    map["PartitionKey" := Text(partition), "RowKey" := record["id"]] + Encoded(c, record, record.Keys)
  }

  function Deserialized<T>(c: Codec<T>, entity: Columns<T>): Columns<T>
    requires "RowKey" in entity
  {
    map["id" := entity["RowKey"]] + map k | k in entity && k !in RESERVED :: Decode(c, entity[k])
  }

  lemma NoColumns<T>(c: Codec<T>, record: Columns<T>, start: Columns<T>)
    ensures start + Encoded(c, record, {}) == start
  {
  }

  lemma OneColumnMore<T>(c: Codec<T>, record: Columns<T>, start: Columns<T>, done: set<string>, key: string)
    requires key in record && key !in done
    ensures start + Encoded(c, record, done + {key}) ==
            if key == "id" then start + Encoded(c, record, done)
            else (start + Encoded(c, record, done))[key := Encode(c, record[key])]
  {
  }

  /** The serializer's loop over the items, in any order. */
  method Serialize<T>(c: Codec<T>, partition: string, record: Columns<T>) returns (entity: Columns<T>)
    requires "id" in record
    ensures entity == Serialized(c, partition, record)
  {
    entity := map["PartitionKey" := Text(partition), "RowKey" := record["id"]];
    ghost var start := entity;
    var rest := record.Keys;
    ghost var done: set<string> := {};
    NoColumns(c, record, start);
    while rest != {}
      invariant done !! rest && done + rest == record.Keys
      invariant entity == start + Encoded(c, record, done)
      decreases |rest|
    {
      var key :| key in rest;
      OneColumnMore(c, record, start, done, key);
      if key != "id" {
        entity := entity[key := Encode(c, record[key])];
      }
      rest := rest - {key};
      done := done + {key};
    }
  }

  /** What is stored fits a table: keyed by partition and id, no `id` column, no None and nothing nested. */
  lemma EntityIsFlat<T>(c: Codec<T>, partition: string, record: Columns<T>, k: string)
    requires "id" in record && record.Keys !! {"PartitionKey", "RowKey"}
    ensures var entity := Serialized(c, partition, record);
            && entity["PartitionKey"] == Text(partition) && entity["RowKey"] == record["id"]
            && "id" !in entity && entity.Keys == record.Keys - {"id"} + {"PartitionKey", "RowKey"}
            && (k in record && k != "id" ==>
                  k in entity && !entity[k].Null? && !entity[k].Nested?
                  && (record[k].Null? ==> entity[k] == Text(""))
                  && (record[k].Nested? ==> entity[k] == Text(c.dumps(record[k].t)))
                  && (record[k].Bool? || record[k].Number? || record[k].Text? ==> entity[k] == record[k]))
  {
    var entity := Serialized(c, partition, record);
    assert entity.Keys == record.Keys - {"id"} + {"PartitionKey", "RowKey"};
  }

  /** And what is read back: the row key as the id, the four columns of the table itself left out, empty text
      as None, the text of a dict or list as its value, everything else as stored. */
  lemma ReadBack<T>(c: Codec<T>, entity: Columns<T>, k: string)
    requires "RowKey" in entity && "id" !in entity
    ensures var record := Deserialized(c, entity);
            && record["id"] == entity["RowKey"]
            && record.Keys == entity.Keys - {"PartitionKey", "RowKey", "etag", "Timestamp"} + {"id"}
            && (k in record && k != "id" ==>
                  k in entity
                  && record[k] == (if !entity[k].Text? then entity[k]
                                   else if entity[k].s == "" then Null
                                   else if c.loads(entity[k].s).Some? then Nested(c.loads(entity[k].s).value)
                                   else entity[k]))
  {
    var record := Deserialized(c, entity);
    assert record.Keys == entity.Keys - {"PartitionKey", "RowKey", "etag", "Timestamp"} + {"id"};
  }

  /** The form every record takes on the way back: "" reads as None, the text of a dict or list as its value. */
  function Normal<T>(c: Codec<T>, v: Value<T>): Value<T> {
    if v.Text? then Decode(c, v) else v
  }

  function NormalRecord<T>(c: Codec<T>, record: Columns<T>): Columns<T> {
    map k | k in record :: if k == "id" then record[k] else Normal(c, record[k])
  }

  lemma DecodeEncode<T(!new)>(c: Codec<T>, v: Value<T>)
    requires Faithful(c)
    ensures Decode(c, Encode(c, v)) == Normal(c, v)
    ensures Normal(c, Normal(c, v)) == Normal(c, v)
  {
  }

  /** Reading back what was written gives the normal form, which is stable from then on. */
  lemma RoundTripIsNormal<T(!new)>(c: Codec<T>, partition: string, record: Columns<T>)
    requires Faithful(c) && "id" in record && record.Keys !! RESERVED
    ensures Deserialized(c, Serialized(c, partition, record)) == NormalRecord(c, record)
    ensures NormalRecord(c, NormalRecord(c, record)) == NormalRecord(c, record)
  {
    var entity := Serialized(c, partition, record);
    var back := Deserialized(c, entity);
    forall k ensures (k in back <==> k in record) && (k in record ==> back[k] == NormalRecord(c, record)[k]) {
      if k in record { DecodeEncode(c, record[k]); }
    }
    forall k | k in record ensures NormalRecord(c, NormalRecord(c, record))[k] == NormalRecord(c, record)[k] {
      DecodeEncode(c, record[k]);
    }
  }

  lemma NormalRecordSame<T>(c: Codec<T>, record: Columns<T>)
    ensures NormalRecord(c, record) == record
            <==> forall k :: k in record && k != "id" ==> Normal(c, record[k]) == record[k]
  {
    var normal := NormalRecord(c, record);
    assert forall k :: k in record && k != "id" ==> normal[k] == Normal(c, record[k]);
  }

  /** Main result: a record comes back unchanged exactly when it uses no reserved column name and no value
      of it is an empty text or the text of a dict or list. */
  lemma RoundTripIsExact<T(!new)>(c: Codec<T>, partition: string, record: Columns<T>)
    requires Faithful(c) && "id" in record
    ensures Deserialized(c, Serialized(c, partition, record)) == record
            <==> record.Keys !! RESERVED && forall k :: k in record && k != "id" ==> Normal(c, record[k]) == record[k]
  {
    var back := Deserialized(c, Serialized(c, partition, record));
    if record.Keys !! RESERVED {
      RoundTripIsNormal(c, partition, record);
      NormalRecordSame(c, record);
    } else {
      var k :| k in record && k in RESERVED;
      assert k !in back;
    }
  }

  /** The merge patch update_draft sends, and what the table does with it. */
  function Patch<T>(c: Codec<T>, partition: string, id: Value<T>, fields: Columns<T>): Columns<T> {
    map["PartitionKey" := Text(partition), "RowKey" := id] + map k | k in fields :: Encode(c, fields[k])
  }

  /** One column of the patched entity, against the same column of the updated record's entity. */
  lemma MergedColumn<T>(c: Codec<T>, partition: string, record: Columns<T>, fields: Columns<T>, k: string)
    requires "id" in record && record.Keys !! {"PartitionKey", "RowKey"} && "id" !in fields
    ensures var merged := Serialized(c, partition, record) + Patch(c, partition, record["id"], fields);
            var updated := Serialized(c, partition, record + fields);
            (k in merged <==> k in updated) && (k in merged ==> merged[k] == updated[k])
  {
    assert (record + fields)["id"] == record["id"];
    if k in fields {
      assert (record + fields)[k] == fields[k];
    } else if k in record {
      assert (record + fields)[k] == record[k];
    }
  }

  lemma SameColumns<T>(a: Columns<T>, b: Columns<T>)
    requires forall k :: (k in a <==> k in b) && (k in a ==> a[k] == b[k])
    ensures a == b
  {
  }

  /** Main result: merging the patch into the stored entity stores exactly the updated record, if and only
      if the patch does not carry an `id` of its own. */
  lemma MergeIsUpdate<T>(c: Codec<T>, partition: string, record: Columns<T>, fields: Columns<T>)
    requires "id" in record && record.Keys !! {"PartitionKey", "RowKey"}
    ensures Serialized(c, partition, record) + Patch(c, partition, record["id"], fields)
            == Serialized(c, partition, record + fields)
            <==> "id" !in fields
  {
    var merged := Serialized(c, partition, record) + Patch(c, partition, record["id"], fields);
    var updated := Serialized(c, partition, record + fields);
    if "id" !in fields {
      forall k ensures (k in merged <==> k in updated) && (k in merged ==> merged[k] == updated[k]) {
        MergedColumn(c, partition, record, fields, k);
      }
      SameColumns(merged, updated);
    } else {
      assert "id" in merged && "id" !in updated;
    }
  }
}
