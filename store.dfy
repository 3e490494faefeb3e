/** The abstract object store that takes the place of Django's ORM: typed
    objects with attributes, a schema saying which attribute of a model is a
    plain column and which is a foreign key, and the external-key mapping
    table (`ExternalKeyMapping`, unique on system and key). */
module Store {
  import opened Common

  /** A model class, by name (`TestPerson`, `TestHouse`). */
  type TypeTag = string

  /** An external system, by name. */
  type SystemId = string

  /** A concrete field of a model: a plain column with its default, or a
      forward relation to another model. */
  datatype Field = Plain(default: Value) | ForeignKey(target: TypeTag)

  type Fields = map<string, Field>
  type Schema = map<TypeTag, Fields>

  /** The attributes of one object. */
  type Record = map<string, Value>

  /** A stored object: its model and its primary key. */
  datatype ObjRef = ObjRef(tag: TypeTag, id: nat)

  /** The unique key of a mapping row. */
  datatype MapKey = MapKey(system: SystemId, key: string)

  /** The database: stored objects, the mapping table (each row names the
      content type and object id it points at, which may dangle), and the
      next primary key to hand out. */
  datatype State = State(objects: map<ObjRef, Record>, mappings: map<MapKey, ObjRef>, nextId: nat)

  function FieldsOf(schema: Schema, tag: TypeTag): Fields {
    if tag in schema then schema[tag] else map[]
  }

  predicate IsPlain(schema: Schema, tag: TypeTag, name: string) {
    name in FieldsOf(schema, tag) && FieldsOf(schema, tag)[name].Plain?
  }

  predicate IsForeignKey(schema: Schema, tag: TypeTag, name: string) {
    name in FieldsOf(schema, tag) && FieldsOf(schema, tag)[name].ForeignKey?
  }

  /** Attribute names are Python identifiers, so none holds the `=>` delimiter. */
  predicate WellFormedSchema(schema: Schema) {
    forall tag, name :: tag in schema && name in schema[tag] ==> !HasDelim(name)
  }

  /** Every stored object has a primary key below the next one handed out. */
  predicate Valid(st: State) {
    forall o :: o in st.objects ==> o.id < st.nextId
  }

  /** `model()`: a new, unsaved instance holding every field's default. */
  function DefaultRecord(schema: Schema, tag: TypeTag): Record {
    var fs := FieldsOf(schema, tag);
    map k | k in fs :: if fs[k].Plain? then fs[k].default else Null
  }

  /** `getattr(obj, name, None)` */
  function Get(rec: Record, name: string): Value {
    if name in rec then rec[name] else Null
  }

  predicate Matches(rec: Record, lookup: map<string, Value>) {
    forall k :: k in lookup ==> Get(rec, k) == lookup[k]
  }

  /** `model.objects.filter(**lookup)`: every lookup name must be a plain
      column of the model (otherwise Django raises `FieldError`); the result
      is the set of objects of the model whose columns equal the lookup. */
  function Filter(schema: Schema, objects: map<ObjRef, Record>, tag: TypeTag, lookup: map<string, Value>): (r: Result<set<ObjRef>>)
    ensures r.Failure? <==> exists k :: k in lookup && !IsPlain(schema, tag, k)
    ensures r.Failure? ==> r.error == FieldError
    ensures r.Success? ==> forall o :: o in r.value <==> o in objects && o.tag == tag && Matches(objects[o], lookup)
  {
    if exists k | k in lookup :: !IsPlain(schema, tag, k) then Failure(FieldError)
    else Success(set o | o in objects && o.tag == tag && Matches(objects[o], lookup))
  }

  /** The one element of a singleton: what `.get()` returns. */
  ghost function Only<T>(s: set<T>): (r: T)
    requires |s| == 1
    ensures s == {r}
  {
    var x :| x in s;
    assert |s - {x}| == 0;
    assert s == {x};
    x
  }

  /** The database as a mutable object, what the actions run against. */
  class Database {
    const schema: Schema
    var objects: map<ObjRef, Record>
    var mappings: map<MapKey, ObjRef>
    var nextId: nat

    function Snapshot(): State
      reads this
    {
      State(objects, mappings, nextId)
    }

    constructor (schema: Schema, st: State)
      ensures this.schema == schema && Snapshot() == st
    {
      this.schema := schema;
      objects := st.objects;
      mappings := st.mappings;
      nextId := st.nextId;
    }

    /** `obj.save()` of the given attributes: an existing object keeps its
        key, a new one gets the next primary key. */
    method Save(tag: TypeTag, existing: Option<ObjRef>, rec: Record) returns (o: ObjRef)
      modifies this
      ensures existing.Some? ==> o == existing.value && nextId == old(nextId)
      ensures existing.None? ==> o == ObjRef(tag, old(nextId)) && nextId == old(nextId) + 1
      ensures objects == old(objects)[o := rec] && mappings == old(mappings)
    {
      if existing.Some? {
        o := existing.value;
      } else {
        o := ObjRef(tag, nextId);
        nextId := nextId + 1;
      }
      objects := objects[o := rec];
    }
  }
}
