/**
 Paths of filesystem nodes (cmd/dockerfuse/client/dockerfuse_fs.go): Lookup,
 Create and Mkdir give a child the path Clean(Join(parent, name)).
 */
module NodePaths {

  // ---------- Package filepath ----------

  /** The components of a path, between its slashes. */
  function Split(path: string): (parts: seq<string>)
    ensures |parts| > 0
  {
    if path == "" then [""]
    else
      var rest := Split(path[1..]);
      if path[0] == '/' then [""] + rest else Longer(path[0], rest)
  }

  /** One more character in front of the first component. */
  function Longer(c: char, parts: seq<string>): seq<string>
    requires |parts| > 0
  {
    [[c] + parts[0]] + parts[1..]
  }

  /** One component met on the way: empty and "." stay, ".." climbs, anything else descends. */
  function Enter(rooted: bool, part: string, stack: seq<string>): seq<string> {
    if part == "" || part == "." then stack
    else if part != ".." then stack + [part]
    else if stack != [] && stack[|stack| - 1] != ".." then stack[..|stack| - 1]
    else if rooted then stack
    else stack + [".."]
  }

  /** The components that remain after resolving ".", ".." and empty ones, on top of a stack. */
  function Resolve(rooted: bool, parts: seq<string>, stack: seq<string>): seq<string>
    decreases |parts|
  {
    if parts == [] then stack else Resolve(rooted, parts[1..], Enter(rooted, parts[0], stack))
  }

  /** Each component after a slash. */
  function Tail(parts: seq<string>): string {
    if parts == [] then "" else Tail(parts[..|parts| - 1]) + "/" + parts[|parts| - 1]
  }

  /** The clean rooted path of some components. */
  function Render(parts: seq<string>): string {
    if parts == [] then "/" else Tail(parts)
  }

  predicate Rooted(path: string) {
    path != "" && path[0] == '/'
  }

  function Clean(path: string): string {
    var parts := Resolve(Rooted(path), Split(path), []);
    if Rooted(path) then Render(parts) else if parts == [] then "." else Tail(parts)[1..]
  }

  function Join(a: string, b: string): string {
    if a != "" then Clean(a + "/" + b) else if b != "" then Clean(b) else ""
  }

  // ---------- Nodes ----------

  function ChildPath(parent: string, name: string): string {
    Clean(Join(parent, name))
  }

  /** The path of the node reached from a root by a chain of names. */
  function NodePath(root: string, names: seq<string>): string {
    if names == [] then root else ChildPath(NodePath(root, names[..|names| - 1]), names[|names| - 1])
  }

  /** The names the kernel passes. */
  predicate Plain(name: string) {
    name != "" && name != "." && name != ".." && '/' !in name
  }

  ghost predicate AllPlain(names: seq<string>) {
    forall i :: 0 <= i < |names| ==> Plain(names[i])
  }

  /** The components a rooted path stands for. */
  function Location(path: string): seq<string> {
    Resolve(true, Split(path), [])
  }

  // ---------- Splitting ----------

  lemma {:induction false} LongerAppends(c: char, a: seq<string>, b: seq<string>)
    requires |a| > 0
    ensures Longer(c, a + b) == Longer(c, a) + b
  {
  }

  lemma {:induction false} SplitAtSlash(a: string, b: string)
    ensures Split(a + "/" + b) == Split(a) + Split(b)
    decreases |a|
  {
    var s := a + "/" + b;
    if a == "" {
      assert s[1..] == b;
    } else {
      SplitAtSlash(a[1..], b);
      assert s[1..] == a[1..] + "/" + b && s[0] == a[0];
      if a[0] == '/' {
        assert [""] + (Split(a[1..]) + Split(b)) == [""] + Split(a[1..]) + Split(b);
      } else {
        LongerAppends(a[0], Split(a[1..]), Split(b));
      }
    }
  }

  lemma {:induction false} SplitWithoutSlash(s: string)
    requires '/' !in s
    ensures Split(s) == [s]
    decreases |s|
  {
    if s != "" {
      SplitWithoutSlash(s[1..]);
      assert [s[0]] + s[1..] == s;
    }
  }

  lemma {:induction false} PartsHaveNoSlash(path: string)
    ensures forall i :: 0 <= i < |Split(path)| ==> '/' !in Split(path)[i]
    decreases |path|
  {
    if path != "" {
      PartsHaveNoSlash(path[1..]);
      var rest := Split(path[1..]);
      forall i | 0 <= i < |Split(path)| ensures '/' !in Split(path)[i] {
        if path[0] == '/' {
          if i > 0 { assert Split(path)[i] == rest[i - 1]; }
        } else {
          assert '/' !in rest[0];
          assert i > 0 ==> Split(path)[i] == rest[i];
        }
      }
    }
  }

  lemma {:induction false} SplitTail(names: seq<string>)
    requires forall i :: 0 <= i < |names| ==> '/' !in names[i]
    ensures Split(Tail(names)) == [""] + names
    decreases |names|
  {
    if names != [] {
      var n := |names| - 1;
      SplitTail(names[..n]);
      SplitAtSlash(Tail(names[..n]), names[n]);
      SplitWithoutSlash(names[n]);
    }
  }

  // ---------- Resolving ----------

  lemma {:induction false} ResolveSplits(rooted: bool, a: seq<string>, b: seq<string>, stack: seq<string>)
    ensures Resolve(rooted, a + b, stack) == Resolve(rooted, b, Resolve(rooted, a, stack))
    decreases |a|
  {
    if a == [] {
      assert a + b == b;
    } else {
      assert (a + b)[1..] == a[1..] + b;
      ResolveSplits(rooted, a[1..], b, Enter(rooted, a[0], stack));
    }
  }

  lemma {:induction false} ResolvePlain(names: seq<string>, stack: seq<string>)
    requires AllPlain(names)
    ensures Resolve(true, names, stack) == stack + names
    decreases |names|
  {
    if names != [] {
      ResolvePlain(names[1..], stack + [names[0]]);
    }
  }

  lemma {:induction false} ResolvedIsPlain(parts: seq<string>, stack: seq<string>)
    requires AllPlain(stack) && forall i :: 0 <= i < |parts| ==> '/' !in parts[i]
    ensures AllPlain(Resolve(true, parts, stack))
    decreases |parts|
  {
    if parts != [] {
      ResolvedIsPlain(parts[1..], Enter(true, parts[0], stack));
    }
  }

  lemma {:induction false} LocationIsPlain(path: string)
    ensures AllPlain(Location(path))
  {
    PartsHaveNoSlash(path);
    ResolvedIsPlain(Split(path), []);
  }

  // ---------- Clean paths ----------

  lemma {:induction false} TailStart(parts: seq<string>)
    requires parts != []
    ensures Rooted(Tail(parts))
  {
    if |parts| > 1 { TailStart(parts[..|parts| - 1]); }
  }

  /** A rendered path is rooted, stands for its components, and is already clean. */
  lemma {:induction false} RenderedIsClean(names: seq<string>)
    requires AllPlain(names)
    ensures Rooted(Render(names)) && Location(Render(names)) == names && Clean(Render(names)) == Render(names)
  {
    if names == [] {
      assert Split("/") == ["", ""];
      assert Resolve(true, ["", ""], []) == Resolve(true, [""], []);
    } else {
      TailStart(names);
      SplitTail(names);
      ResolveSplits(true, [""], names, []);
      ResolvePlain(names, Resolve(true, [""], []));
    }
  }

  lemma {:induction false} CleanRenders(path: string)
    requires Rooted(path)
    ensures Clean(path) == Render(Location(path))
  {
  }

  // ---------- What Clean promises ----------

  lemma {:induction false} ResolveMiddle(rooted: bool, a: seq<string>, mid: seq<string>, b: seq<string>)
    requires Resolve(rooted, mid, Resolve(rooted, a, [])) == Resolve(rooted, a, [])
    ensures Resolve(rooted, a + mid + b, []) == Resolve(rooted, a + b, [])
  {
    ResolveSplits(rooted, a + mid, b, []);
    ResolveSplits(rooted, a, mid, []);
    ResolveSplits(rooted, a, b, []);
  }

  /** Components that resolve to nothing can be cut out of a path. */
  lemma {:induction false} CutMiddle(a: string, mid: string, b: string)
    requires forall rooted, stack :: Resolve(rooted, Split(mid), stack) == stack
    ensures Clean(a + "/" + mid + "/" + b) == Clean(a + "/" + b)
  {
    var long, short := a + "/" + mid + "/" + b, a + "/" + b;
    SplitAtSlash(a + "/" + mid, b);
    SplitAtSlash(a, mid);
    SplitAtSlash(a, b);
    assert Rooted(long) == Rooted(short);
    ResolveMiddle(Rooted(long), Split(a), Split(mid), Split(b));
  }

  /**
   The four rules of filepath.Clean: an empty component, "." and a name followed
   by ".." can be cut out anywhere, and ".." right after the root goes nowhere.
   */
  lemma {:induction false} CleanRules(a: string, name: string, b: string)
    requires Plain(name)
    ensures Clean(a + "/" + "" + "/" + b) == Clean(a + "/" + b)
    ensures Clean(a + "/" + "." + "/" + b) == Clean(a + "/" + b)
    ensures Clean(a + "/" + (name + "/" + "..") + "/" + b) == Clean(a + "/" + b)
    ensures Clean("" + "/" + ".." + "/" + b) == Clean("" + "/" + b)
  {
    SplitWithoutSlash(".");
    SplitWithoutSlash("..");
    SplitWithoutSlash(name);
    SplitAtSlash(name, "..");
    forall rooted, stack
      ensures Resolve(rooted, [""], stack) == stack && Resolve(rooted, ["."], stack) == stack
      ensures Resolve(rooted, [name] + [".."], stack) == stack
    {
      ResolveSplits(rooted, [name], [".."], stack);
    }
    CutMiddle(a, "", b);
    CutMiddle(a, ".", b);
    CutMiddle(a, name + "/" + "..", b);
    SplitAtSlash("" + "/" + "..", b);
    SplitAtSlash("", "..");
    SplitAtSlash("", b);
    ResolveMiddle(true, [""], [".."], Split(b));
  }

  /** Join ignores empty elements. */
  lemma {:induction false} JoinIgnoresEmpty(path: string)
    ensures Join(path, "") == Join("", path) == if path == "" then "" else Clean(path)
  {
    SplitAtSlash(path, "");
    ResolveSplits(Rooted(path), Split(path), [""], []);
    assert path != "" ==> Rooted(path + "/" + "") == Rooted(path);
  }

  /** Only names, after any number of ".." that climb out of where a relative path starts. */
  ghost predicate Normal(rooted: bool, stack: seq<string>) {
    stack == [] ||
    var n := |stack| - 1;
    && Normal(rooted, stack[..n])
    && (Plain(stack[n]) || (!rooted && stack[n] == ".." && (n == 0 || stack[n - 1] == "..")))
  }

  lemma {:induction false} NormalParts(rooted: bool, stack: seq<string>)
    requires Normal(rooted, stack)
    ensures forall i :: 0 <= i < |stack| ==> Plain(stack[i]) || (!rooted && stack[i] == "..")
  {
    if stack != [] { NormalParts(rooted, stack[..|stack| - 1]); }
  }

  lemma {:induction false} EnterNormal(rooted: bool, part: string, stack: seq<string>)
    requires Normal(rooted, stack) && '/' !in part
    ensures Normal(rooted, Enter(rooted, part, stack))
  {
    assert (stack + [part])[..|stack|] == stack;
  }

  lemma {:induction false} ResolvedIsNormal(rooted: bool, parts: seq<string>, stack: seq<string>)
    requires Normal(rooted, stack) && forall i :: 0 <= i < |parts| ==> '/' !in parts[i]
    ensures Normal(rooted, Resolve(rooted, parts, stack))
    decreases |parts|
  {
    hide Enter, Normal;
    if parts != [] {
      EnterNormal(rooted, parts[0], stack);
      ResolvedIsNormal(rooted, parts[1..], Enter(rooted, parts[0], stack));
    }
  }

  lemma {:induction false} NormalStays(rooted: bool, stack: seq<string>)
    requires Normal(rooted, stack)
    ensures Resolve(rooted, stack, []) == stack
    decreases |stack|
  {
    if stack != [] {
      var n := |stack| - 1;
      NormalStays(rooted, stack[..n]);
      ResolveSplits(rooted, stack[..n], [stack[n]], []);
      assert stack[..n] + [stack[n]] == stack;
      assert Resolve(rooted, [stack[n]], stack[..n]) == Enter(rooted, stack[n], stack[..n]);
    }
  }

  lemma {:induction false} FirstPart(path: string)
    ensures Split(path)[0] != "" <==> path != "" && !Rooted(path)
  {
  }

  lemma {:induction false} SplitRelative(stack: seq<string>)
    requires stack != [] && Normal(false, stack)
    ensures Split(Tail(stack)[1..]) == stack && !Rooted(Tail(stack)[1..]) && Tail(stack)[1..] != ""
  {
    NormalParts(false, stack);
    TailStart(stack);
    SplitTail(stack);
    var t := Tail(stack)[1..];
    assert Split(Tail(stack)) == [""] + Split(t);
    assert Split(t) == ([""] + Split(t))[1..] == ([""] + stack)[1..];
    FirstPart(t);
  }

  /** Clean is idempotent, on rooted and on relative paths. */
  lemma {:induction false} CleanIdempotent(path: string)
    ensures Clean(Clean(path)) == Clean(path)
  {
    var parts := Resolve(Rooted(path), Split(path), []);
    PartsHaveNoSlash(path);
    ResolvedIsNormal(Rooted(path), Split(path), []);
    NormalParts(Rooted(path), parts);
    if Rooted(path) {
      RenderedIsClean(parts);
    } else if parts == [] {
      SplitWithoutSlash(".");
    } else {
      SplitRelative(parts);
      NormalStays(false, parts);
    }
  }

  /** The clean path with one more name. */
  function Under(path: string, name: string): string {
    if path == "/" then "/" + name else if path == "." then name else path + "/" + name
  }

  lemma {:induction false} PartsUnder(path: string, name: string)
    requires path != "" && Plain(name)
    ensures var rooted := Rooted(path);
            var parts := Resolve(rooted, Split(path), []);
            && Rooted(path + "/" + name) == rooted && Normal(rooted, parts)
            && Resolve(rooted, Split(path + "/" + name), []) == parts + [name]
  {
    SplitAtSlash(path, name);
    SplitWithoutSlash(name);
    ResolveSplits(Rooted(path), Split(path), [name], []);
    PartsHaveNoSlash(path);
    ResolvedIsNormal(Rooted(path), Split(path), []);
  }

  lemma {:induction false} RootedUnder(parts: seq<string>, name: string)
    requires Normal(true, parts)
    ensures Render(parts + [name]) == Under(Render(parts), name)
  {
    assert (parts + [name])[..|parts|] == parts;
    if parts != [] {
      TailStart(parts);
      assert |Tail(parts)| > 1;
    } else {
      assert parts + [name] == [name];
      OneName(name);
    }
  }

  lemma {:induction false} RelativeUnder(parts: seq<string>, name: string)
    requires parts != [] && Normal(false, parts)
    ensures Tail(parts + [name])[1..] == Under(Tail(parts)[1..], name)
  {
    assert (parts + [name])[..|parts|] == parts;
    var t := Tail(parts)[1..];
    SplitRelative(parts);
    if t == "." { SplitWithoutSlash(t); NormalParts(false, parts); }
    assert Tail(parts + [name]) == Tail(parts) + "/" + name;
  }

  /** Clean, as text: where it starts, and how each further name is appended. */
  lemma {:induction false} CleanText(path: string, name: string)
    requires path != "" && Plain(name)
    ensures Clean("/") == "/" && Clean("") == "." && Clean(".") == "."
    ensures Clean(path + "/" + name) == Under(Clean(path), name)
  {
    hide Resolve, Split, Tail, Render, Normal;
    CleanStarts();
    var parts := Resolve(Rooted(path), Split(path), []);
    PartsUnder(path, name);
    if Rooted(path) {
      RootedUnder(parts, name);
    } else if parts != [] {
      RelativeUnder(parts, name);
    } else {
      assert parts + [name] == [name];
      OneName(name);
    }
  }

  lemma {:induction false} OneName(name: string)
    ensures Tail([name]) == "/" + name && Tail([name])[1..] == name
  {
    assert Tail([]) == "" && "" + "/" + name == "/" + name;
  }

  lemma {:induction false} CleanStarts()
    ensures Clean("/") == "/" && Clean("") == "." && Clean(".") == "."
  {
    SplitWithoutSlash(".");
    assert Split("/") == ["", ""];
    assert Resolve(true, ["", ""], []) == Resolve(true, [""], []);
  }

  /** The child of any rooted parent: the parent's components with the name entered on top. */
  lemma {:induction false} ChildOf(parent: string, name: string)
    requires Rooted(parent) && '/' !in name
    ensures ChildPath(parent, name) == Render(Enter(true, name, Location(parent)))
    ensures Rooted(ChildPath(parent, name)) && Location(ChildPath(parent, name)) == Enter(true, name, Location(parent))
  {
    var joined := parent + "/" + name;
    SplitAtSlash(parent, name);
    SplitWithoutSlash(name);
    ResolveSplits(true, Split(parent), [name], []);
    assert Resolve(true, [name], Location(parent)) == Enter(true, name, Location(parent));
    LocationIsPlain(joined);
    RenderedIsClean(Location(joined));
  }

  /**
   A child lies exactly one component below its parent, under its own name, if
   and only if the name is plain; any other name stays, climbs or goes deeper.
   */
  lemma {:induction false} ChildExactlyWhenPlain(parent: string, name: string)
    requires Rooted(parent)
    ensures Location(ChildPath(parent, name)) == Location(parent) + [name] <==> Plain(name)
  {
    LocationIsPlain(ChildPath(parent, name));
    if Plain(name) {
      ChildOf(parent, name);
    }
    if Location(ChildPath(parent, name)) == Location(parent) + [name] {
      assert Plain((Location(parent) + [name])[|Location(parent)|]);
    }
  }

  /** From any rooted mount path, a chain of plain names descends by exactly those names. */
  lemma {:induction false} ChainLocation(root: string, names: seq<string>)
    requires Rooted(root) && AllPlain(names)
    ensures Rooted(NodePath(root, names)) && Location(NodePath(root, names)) == Location(root) + names
    decreases |names|
  {
    hide Location, ChildPath;
    if names == [] {
      assert Location(root) + names == Location(root);
    } else {
      var n := |names| - 1;
      ChainLocation(root, names[..n]);
      ChildOf(NodePath(root, names[..n]), names[n]);
      assert Location(root) + names[..n] + [names[n]] == Location(root) + names;
    }
  }

  /**
   The path of a node is the clean mount path followed by the names of its
   chain; only the root node itself keeps a mount path that was not clean.
   */
  lemma {:induction false} ChainPath(root: string, names: seq<string>)
    requires Rooted(root) && AllPlain(names)
    ensures NodePath(root, names) == Render(Location(root) + names) <==> names != [] || Clean(root) == root
  {
    hide Location, ChildPath, Render;
    if names == [] {
      assert Location(root) + names == Location(root);
      CleanRenders(root);
    } else {
      var n := |names| - 1;
      ChainLocation(root, names[..n]);
      ChildOf(NodePath(root, names[..n]), names[n]);
      assert Location(root) + names[..n] + [names[n]] == Location(root) + names;
    }
  }

  /** So distinct chains give distinct paths, and every path stays under the mount path. */
  lemma {:induction false} ChainsStayApart(root: string, a: seq<string>, b: seq<string>)
    requires Rooted(root) && AllPlain(a) && AllPlain(b)
    ensures NodePath(root, a) == NodePath(root, b) ==> a == b
    ensures Location(root) <= Location(NodePath(root, a))
  {
    ChainLocation(root, a);
    ChainLocation(root, b);
    if NodePath(root, a) == NodePath(root, b) {
      assert a == (Location(root) + a)[|Location(root)|..];
      assert b == (Location(root) + b)[|Location(root)|..];
    }
  }
}
