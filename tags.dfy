/** The decoded tag tree that OpenNBT hands to `processTag`.

    The decoder itself (`NBTIO.readTag` / `NBTIO.readFile`) is not part of
    this model: a tree is taken as given.  Each tag carries its name; list
    elements carry the empty name, which is what OpenNBT gives the unnamed
    elements of a list. */
module Tags {
  import opened Options

  /** The thirteen tag kinds of the format. */
  datatype Kind =
    | End | Byte | Short | Int | Long | Float | Double | ByteArray
    | String | List | Compound | IntArray | LongArray

  datatype Tag =
    | StringTag(name: string, value: string)
    | ListTag(name: string, elementKind: Kind, elements: seq<Tag>)
      /** the children in `values()` order; names are unique in a decoded compound */
    | CompoundTag(name: string, children: seq<Tag>)
      /** a numeric or array tag: its payload is never inspected by the scan */
    | ValueTag(name: string, kind: Kind)

  /** `CompoundTag.get(key)`: the child with that name, if there is one. */
  function Get(children: seq<Tag>, key: string): (r: Option<Tag>)
    ensures r.Some? <==> exists i :: 0 <= i < |children| && children[i].name == key
    ensures r.Some? ==> r.value in children && r.value.name == key
  {
    if children == [] then None
    else if children[0].name == key then Some(children[0])
    else Get(children[1..], key)
  }

  /** The number of tags in a tree. */
  function Size(t: Tag): nat
  {
    match t
    case ListTag(_, _, elements) => 1 + SizeOf(elements)
    case CompoundTag(_, children) => 1 + SizeOf(children)
    case _ => 1
  }

  function SizeOf(ts: seq<Tag>): nat
  {
    if ts == [] then 0 else Size(ts[0]) + SizeOf(ts[1..])
  }

  lemma {:induction false} SizeOfAppend(a: seq<Tag>, b: seq<Tag>)
    ensures SizeOf(a + b) == SizeOf(a) + SizeOf(b)
  {
    if a != [] {
      assert (a + b)[1..] == a[1..] + b;
      SizeOfAppend(a[1..], b);
    } else {
      assert a + b == b;
    }
  }
}
