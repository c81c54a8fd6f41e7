/**
 * Message-type descriptors as protobufjs builds them from
 * `new protobuf.Type(name).add(new protobuf.Field(name, id, type, rule))`,
 * and the lookup of a type by name in a root namespace. The encoding and
 * decoding protobufjs does with them is not part of this model.
 */
module Schema {

  import opened Wrappers

  datatype Scalar = Uint64 | Int32 | StringScalar | Double

  /** A field's type: a scalar, or a reference to a message type by name. */
  datatype FieldType = ScalarType(kind: Scalar) | MessageRef(typeName: string)

  /** The field rule; `NoRule` is a field declared without one. */
  datatype Rule = NoRule | Optional | Required | Repeated

  datatype FieldDescriptor = FieldDescriptor(name: string, id: nat, fieldType: FieldType, rule: Rule)

  datatype MessageType = MessageType(name: string, fields: seq<FieldDescriptor>)

  const UINT64: FieldType := ScalarType(Uint64)
  const INT32: FieldType := ScalarType(Int32)
  const STRING: FieldType := ScalarType(StringScalar)
  const DOUBLE: FieldType := ScalarType(Double)

  /** Each field's tag is larger than the one declared before it. */
  predicate TagsIncreasing(fields: seq<FieldDescriptor>)
  {
    forall i :: 0 < i < |fields| ==> fields[i - 1].id < fields[i].id
  }

  /** No two fields of a type share a tag. */
  predicate DistinctTags(fields: seq<FieldDescriptor>)
  {
    forall i, j :: 0 <= i < j < |fields| ==> fields[i].id != fields[j].id
  }

  lemma {:induction false} IncreasingBetween(fields: seq<FieldDescriptor>, i: nat, j: nat)
    requires TagsIncreasing(fields)
    requires i < j < |fields|
    ensures fields[i].id < fields[j].id
    decreases j - i
  {
    if i + 1 < j {
      IncreasingBetween(fields, i, j - 1);
    }
  }

  /** Tags declared in increasing order are pairwise distinct. */
  lemma IncreasingTagsAreDistinct(fields: seq<FieldDescriptor>)
    requires TagsIncreasing(fields)
    ensures DistinctTags(fields)
  {
    forall i, j | 0 <= i < j < |fields|
      ensures fields[i].id != fields[j].id
    {
      IncreasingBetween(fields, i, j);
    }
  }

  /** The names of the types in a root namespace, in the order they were added. */
  function TypeNames(root: seq<MessageType>): (names: seq<string>)
    ensures |names| == |root|
    ensures forall k :: 0 <= k < |root| ==> names[k] == root[k].name
  {
    seq(|root|, k requires 0 <= k < |root| => root[k].name)
  }

  /** `root.lookupType(name)`, None when no type of that name was added (protobufjs throws). */
  function LookupType(root: seq<MessageType>, name: string): (r: Option<MessageType>)
    ensures r.Some? ==> r.value in root && r.value.name == name
    decreases |root|
  {
    if root == [] then None
    else if root[0].name == name then Some(root[0])
    else LookupType(root[1..], name)
  }

  /** The lookup finds a type exactly when one of that name was added. */
  lemma {:induction false} LookupTypeIff(root: seq<MessageType>, name: string)
    ensures LookupType(root, name).Some? <==> name in TypeNames(root)
    decreases |root|
  {
    if root != [] && root[0].name != name {
      LookupTypeIff(root[1..], name);
      assert TypeNames(root) == [root[0].name] + TypeNames(root[1..]);
    }
  }

  /** The first type of the root with a given name is the one the lookup finds. */
  lemma {:induction false} LookupTypeAt(root: seq<MessageType>, name: string, k: nat)
    requires k < |root| && root[k].name == name
    requires forall j :: 0 <= j < k ==> root[j].name != name
    ensures LookupType(root, name) == Some(root[k])
    decreases k
  {
    if k > 0 {
      LookupTypeAt(root[1..], name, k - 1);
    }
  }

  /** The field of a type declared first with a given name. */
  function FieldNamed(m: MessageType, name: string): (r: Option<FieldDescriptor>)
    ensures r.Some? ==> r.value in m.fields && r.value.name == name
  {
    FirstNamed(m.fields, name)
  }

  function FirstNamed(fields: seq<FieldDescriptor>, name: string): (r: Option<FieldDescriptor>)
    ensures r.Some? ==> r.value in fields && r.value.name == name
    ensures r.None? <==> forall i :: 0 <= i < |fields| ==> fields[i].name != name
    decreases |fields|
  {
    if fields == [] then None
    else if fields[0].name == name then Some(fields[0])
    else FirstNamed(fields[1..], name)
  }

  /** The first field with a given name is the one FieldNamed finds. */
  lemma {:induction false} FieldNamedAt(m: MessageType, name: string, i: nat)
    requires i < |m.fields| && m.fields[i].name == name
    requires forall j :: 0 <= j < i ==> m.fields[j].name != name
    ensures FieldNamed(m, name) == Some(m.fields[i])
  {
    FirstNamedAt(m.fields, name, i);
  }

  lemma {:induction false} FirstNamedAt(fields: seq<FieldDescriptor>, name: string, i: nat)
    requires i < |fields| && fields[i].name == name
    requires forall j :: 0 <= j < i ==> fields[j].name != name
    ensures FirstNamed(fields, name) == Some(fields[i])
    decreases i
  {
    if i > 0 {
      FirstNamedAt(fields[1..], name, i - 1);
    }
  }

  /** Every message-type reference of `m` names one of `names`. */
  predicate RefsWithin(m: MessageType, names: seq<string>)
  {
    forall i :: 0 <= i < |m.fields| && m.fields[i].fieldType.MessageRef? ==> m.fields[i].fieldType.typeName in names
  }

  /** Every message-type reference of every type names a type of the same root. */
  predicate RefsResolve(root: seq<MessageType>)
  {
    forall k :: 0 <= k < |root| ==> RefsWithin(root[k], TypeNames(root))
  }
}
