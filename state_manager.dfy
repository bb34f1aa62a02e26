/**
 * The reliable state manager, reduced to what the indexing code relies on: the set of names of
 * the collections it holds. The content of an index collection is kept by the index object
 * bound to it.
 */
module StateManagers {
  class StateManager {
    var names: set<string>

    constructor (names: set<string>)
      ensures this.names == names
    {
      this.names := names;
    }
  }

  /**
   * `GetIndexName` of both index kinds: the collection of an index lives under `<kind>/<name>`
   * below the base name.
   */
  function IndexCollectionName(baseName: string, kind: string, name: string): (r: string)
    ensures |r| == |baseName| + |kind| + 1 + |name|
    ensures r[..|baseName|] == baseName && r[|baseName|..|baseName| + |kind| + 1] == kind + "/"
    ensures r[|baseName| + |kind| + 1..] == name
  {
    baseName + kind + "/" + name
  }
}
