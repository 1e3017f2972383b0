/** The module-level `folders` list of main.py and `add_folder`, which extends it. */
module Registry {

  /** The entry `folders` starts with; as a category's selection it means
      "do not route this category". */
  const Sentinel: string := "None"

  predicate NoDuplicates(names: seq<string>) {
    forall i, j :: 0 <= i < j < |names| ==> names[i] != names[j]
  }

  /** The ordered list of destination-folder names offered to every category. */
  class FolderRegistry {
    var names: seq<string>

    ghost predicate Valid()
      reads this
    {
      |names| > 0 && names[0] == Sentinel && NoDuplicates(names)
    }

    constructor ()
      ensures Valid()
      ensures names == [Sentinel]
    {
      names := [Sentinel];
    }

    /** `add_folder`: a name already listed (compared exactly) is refused and the
        list is left as it was; any other name, the empty one included, is
        appended at the end. The error dialog is the `false` result. */
    method Add(name: string) returns (ok: bool)
      requires Valid()
      modifies this
      ensures Valid()
      ensures ok <==> name !in old(names)
      ensures names == if ok then old(names) + [name] else old(names)
      ensures name in names
      ensures name == Sentinel ==> !ok
    {
      if name in names {
        return false;
      }
      names := names + [name];
      return true;
    }
  }

  /** Registering the same name twice on a fresh list: the first attempt
      succeeds unless the name is the sentinel, the second is always refused,
      and the name is then listed exactly once, after the sentinel. */
  method RegisterTwice(name: string) returns (first: bool, second: bool, names: seq<string>)
    ensures first <==> name != Sentinel
    ensures !second
    ensures names == if first then [Sentinel, name] else [Sentinel]
    ensures NoDuplicates(names) && name in names
  {
    var registry := new FolderRegistry();
    first := registry.Add(name);
    second := registry.Add(name);
    names := registry.names;
  }
}
