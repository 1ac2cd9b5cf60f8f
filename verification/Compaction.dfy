/** The deletion loops of the command line, which compact a slice into its own backing array while ranging over it. */
module Compaction {
  import opened Nodes
  import opened Store
  import opened Admission
  import opened Server

  /** The elements that are kept, in order. */
  function Kept<T>(xs: seq<T>, drop: T -> bool): seq<T> {
    if xs == [] then []
    else Kept(xs[..|xs| - 1], drop) + if drop(xs[|xs| - 1]) then [] else [xs[|xs| - 1]]
  }

  function Dropped<T>(xs: seq<T>, drop: T -> bool): seq<T> {
    Kept(xs, x => !drop(x))
  }

  predicate Hit<T>(xs: seq<T>, drop: T -> bool) {
    exists i :: 0 <= i < |xs| && drop(xs[i])
  }

  lemma HitLast<T>(xs: seq<T>, drop: T -> bool)
    requires xs != []
    ensures Hit(xs, drop) <==> Hit(xs[..|xs| - 1], drop) || drop(xs[|xs| - 1])
  {
    var init := xs[..|xs| - 1];
    assert forall i :: 0 <= i < |init| ==> init[i] == xs[i];
  }

  /** Writes go to places already read: the kept elements end up in front, in order, and the rest of the backing
      array is left as it was. */
  method Compact<T>(a: array<T>, drop: T -> bool) returns (kept: nat, found: bool)
    modifies a
    ensures kept <= a.Length && a[..kept] == Kept(old(a[..]), drop)
    ensures a[kept..] == old(a[..])[kept..]
    ensures found <==> Hit(old(a[..]), drop)
    ensures !found ==> kept == a.Length && a[..] == old(a[..])
  {
    kept, found := 0, false;
    ghost var was := a[..];
    for read := 0 to a.Length
      invariant kept <= read
      invariant a[..kept] == Kept(was[..read], drop)
      invariant forall i :: kept <= i < a.Length ==> a[i] == was[i]
      invariant found <==> Hit(was[..read], drop)
      invariant !found ==> kept == read
    {
      assert was[..read + 1][..read] == was[..read];
      HitLast(was[..read + 1], drop);
      var item := a[read];
      if drop(item) {
        found := true;
      } else {
        ghost var before := a[..kept];
        a[kept] := item;
        assert a[..kept + 1] == before + [item];
        kept := kept + 1;
      }
    }
    assert a[kept..] == was[kept..];
    if !found { NothingDropped(was, drop); }
    assert was[..a.Length] == was;
  }

  /** Nothing is lost or invented: kept and dropped elements together are the original ones. */
  lemma {:induction false} KeptAndDropped<T>(xs: seq<T>, drop: T -> bool)
    ensures multiset(Kept(xs, drop)) + multiset(Dropped(xs, drop)) == multiset(xs)
  {
    if xs != [] {
      var init, last := xs[..|xs| - 1], xs[|xs| - 1];
      KeptAndDropped(init, drop);
      assert xs == init + [last];
    }
  }

  lemma {:induction false} KeptElements<T>(xs: seq<T>, drop: T -> bool, x: T)
    ensures x in Kept(xs, drop) <==> x in xs && !drop(x)
  {
    if xs != [] {
      KeptElements(xs[..|xs| - 1], drop, x);
      assert xs == xs[..|xs| - 1] + [xs[|xs| - 1]];
    }
  }

  lemma {:induction false} NothingDropped<T>(xs: seq<T>, drop: T -> bool)
    requires !Hit(xs, drop)
    ensures Kept(xs, drop) == xs
  {
    if xs != [] {
      HitLast(xs, drop);
      NothingDropped(xs[..|xs| - 1], drop);
    }
  }

  // ----- tokens -----

  function IsToken(token: string): string -> bool { item => item == token }

  /** loadConfig fills in what is empty. */
  function WithDefaults(config: Config): Config {
    var listen := if config.listen == "" then ":8088" else config.listen;
    config.(listen := listen,
            dataFile := if config.dataFile == "" then "./nodes.json" else config.dataFile,
            publicBaseURL := if config.publicBaseURL == "" then "http://127.0.0.1" + listen else config.publicBaseURL)
  }

  /** `used` is `given` with every empty setting filled in. */
  predicate FilledIn(given: Config, used: Config) {
    && (given.listen != "" ==> used.listen == given.listen)
    && (given.listen == "" ==> used.listen == ":8088")
    && (given.dataFile != "" ==> used.dataFile == given.dataFile)
    && (given.dataFile == "" ==> used.dataFile == "./nodes.json")
    && (given.publicBaseURL != "" ==> used.publicBaseURL == given.publicBaseURL)
    && (given.publicBaseURL == "" && given.listen != "" ==> used.publicBaseURL == "http://127.0.0.1" + given.listen)
    && (given.publicBaseURL == "" && given.listen == "" ==> used.publicBaseURL == "http://127.0.0.1:8088")
    && used.registerTokens == given.registerTokens && used.subscribeTokens == given.subscribeTokens
  }

  /** Saving a loaded configuration and loading it again changes nothing more, and no token is touched. */
  lemma DefaultsSettle(config: Config)
    ensures WithDefaults(WithDefaults(config)) == WithDefaults(config)
    ensures FilledIn(config, WithDefaults(config))
  {
    var c := WithDefaults(config);
    assert c.listen != "" && c.dataFile != "" && c.publicBaseURL != "";
  }

  /** runTokenDelete: loads the configuration, compacts the token list, saves the configuration. An absent or
      undecodable file and an absent token are errors. */
  method RunTokenDelete(disk: Disk<Config>, token: string, fault: Fault) returns (ok: bool)
    modifies disk
    ensures ok <==> fault.Fine? && old(disk.path).Holds? && token in old(disk.path).content.subscribeTokens
    ensures ok ==>
              var was := old(disk.path).content;
              disk.path.Holds? &&
              FilledIn(was.(subscribeTokens := Kept(was.subscribeTokens, IsToken(token))), disk.path.content)
    ensures !ok ==> disk.path == old(disk.path)
  {
    if !disk.path.Holds? { return false; }
    var config := WithDefaults(disk.path.content);
    var tokens := config.subscribeTokens;
    var subscribeTokens := new string[|tokens|](i requires 0 <= i < |tokens| => tokens[i]);
    assert subscribeTokens[..] == tokens;
    var kept, found := Compact(subscribeTokens, IsToken(token));
    if !found { return false; }
    DefaultsSettle(disk.path.content);
    config := config.(subscribeTokens := subscribeTokens[..kept]);
    ok := disk.WriteJSONAtomic(config, fault);
  }

  /** Deleting a token revokes that token, with all its copies, and no other. */
  lemma TokenRevoked(tokens: seq<string>, token: string, other: string)
    ensures Known(Kept(tokens, IsToken(token)), other) <==> Known(tokens, other) && other != token
  {
    KeptElements(tokens, IsToken(token), other);
  }

  // ----- nodes -----

  function HasID(id: string): Node -> bool { (n: Node) => n.nodeID == id }

  /** The data file that a configuration file names. */
  function DataFile(file: File<Config>): (path: string)
    ensures file.Holds? && file.content.dataFile == "" ==> path == "./nodes.json"
    ensures file.Holds? && file.content.dataFile != "" ==> path == file.content.dataFile
  {
    if file.Holds? then WithDefaults(file.content).dataFile else ""
  }

  function Named<T>(files: map<string, Disk<T>>, path: string): set<Disk<T>> {
    if path in files then {files[path]} else {}
  }

  /** runNodeDelete: loads the configuration, then the data file it names, compacts the node list, saves it. A
      configuration that is absent or does not decode is an error; an absent data file holds no node; one that does
      not decode is an error. */
  method RunNodeDelete(config: Disk<Config>, files: map<string, Disk<seq<Node>>>, id: string, fault: Fault)
    returns (ok: bool)
    modifies Named(files, DataFile(config.path))
    ensures config.path == old(config.path)
    ensures ok ==> config.path.Holds? && DataFile(config.path) in files
    ensures DataFile(config.path) in files ==>
              var disk := files[DataFile(config.path)];
              && (ok <==> fault.Fine? && config.path.Holds? && old(disk.path).Holds? &&
                          Hit(old(disk.path).content, HasID(id)))
              && disk.path == (if ok then Holds(Kept(old(disk.path).content, HasID(id))) else old(disk.path))
              && (ok ==> Load(disk.path) == Load(old(disk.path)) - {id})
  {
    if !config.path.Holds? { return false; }
    if DataFile(config.path) !in files { return false; }
    var disk := files[DataFile(config.path)];
    if disk.path.Torn? { return false; }
    var loaded := if disk.path.Missing? then [] else disk.path.content;
    var nodes := new Node[|loaded|](i requires 0 <= i < |loaded| => loaded[i]);
    assert nodes[..] == loaded;
    var kept, found := Compact(nodes, HasID(id));
    if !found { return false; }
    RebuildKept(loaded, id);
    ok := disk.WriteJSONAtomic(nodes[..kept], fault);
  }

  lemma RebuildLast(nodes: seq<Node>, last: Node)
    ensures Rebuild(nodes + [last]) == Rebuild(nodes)[last.nodeID := last]
  {
    assert (nodes + [last])[..|nodes|] == nodes;
  }

  lemma Unset(table: Table, last: Node, id: string)
    ensures table[last.nodeID := last] - {id} ==
            if last.nodeID == id then table - {id} else (table - {id})[last.nodeID := last]
  {
  }

  /** What is left in the file is the map without the deleted node, even where the file listed it more than once. */
  lemma {:induction false} RebuildKept(nodes: seq<Node>, id: string)
    ensures Rebuild(Kept(nodes, HasID(id))) == Rebuild(nodes) - {id}
  {
    if nodes != [] {
      var init, last := nodes[..|nodes| - 1], nodes[|nodes| - 1];
      RebuildKept(init, id);
      var kept := Kept(init, HasID(id));
      if last.nodeID == id {
        assert Kept(nodes, HasID(id)) == kept;
      } else {
        assert Kept(nodes, HasID(id)) == kept + [last];
        RebuildLast(kept, last);
      }
      Unset(Rebuild(init), last, id);
    }
  }
}
