/**
 The TFTP root as a jail: requests are resolved with symlinks and then opened
 component by component without following any. Paths are component lists, a
 file system is a tree.
 */
module TftpJail {
  import opened Common

  type Path = seq<string>

  datatype Node =
    | File(id: nat)
    | Dir(entries: map<string, Node>)
    | Link(absolute: bool, target: Path)

  /** Symlinks `filepath.EvalSymlinks` is willing to follow. */
  const MAX_LINKS := 255

  predicate IsSpecial(c: string) {
    c == "" || c == "." || c == ".."
  }

  predicate Proper(p: Path) {
    forall k :: 0 <= k < |p| ==> !IsSpecial(p[k])
  }

  function Parent(p: Path): Path {
    if p == [] then [] else p[..|p| - 1]
  }

  /** The node a path names when no symlink is followed. */
  function At(n: Node, p: Path): Option<Node> {
    if p == [] then Some(n)
    else if n.Dir? && p[0] in n.entries then At(n.entries[p[0]], p[1..])
    else None
  }

  // Library functions on paths.

  /** Lexical cleaning below `done`: drops "." and empty components, resolves "..". */
  function Clean(done: Path, p: Path): Path
    decreases |p|
  {
    if p == [] then done
    else if p[0] == ".." then Clean(Parent(done), p[1..])
    else if IsSpecial(p[0]) then Clean(done, p[1..])
    else Clean(done + [p[0]], p[1..])
  }

  /** How many leading components two paths share. */
  function Shared(a: Path, b: Path): (n: nat)
    ensures n <= |a| && n <= |b| && a[..n] == b[..n]
    ensures a <= b <==> n == |a|
  {
    if a != [] && b != [] && a[0] == b[0] then 1 + Shared(a[1..], b[1..]) else 0
  }

  function Ups(n: nat): Path {
    if n == 0 then [] else [".."] + Ups(n - 1)
  }

  /** `filepath.Rel` of two clean absolute paths. */
  function Rel(base: Path, target: Path): (rel: Path)
    ensures rel != []
  {
    var n := Shared(base, target);
    var rel := Ups(|base| - n) + target[n..];
    if rel == [] then ["."] else rel
  }

  /** `pathWithinRoot`: the relative path does not start with "..". */
  predicate WithinRoot(root: Path, full: Path) {
    Rel(root, full)[0] != ".."
  }

  /** `filepath.EvalSymlinks`: rewrites a path, read from the tree's root, until no symlink is left in it. */
  function EvalFrom(fs: Node, done: Path, todo: Path, links: nat): Option<Path>
    decreases links, |todo|
  {
    if todo == [] then Some(done)
    else if todo[0] == ".." then EvalFrom(fs, Parent(done), todo[1..], links)
    else if IsSpecial(todo[0]) then EvalFrom(fs, done, todo[1..], links)
    else match At(fs, done + [todo[0]])
         case None => None
         case Some(File(_)) => if |todo| == 1 then Some(done + [todo[0]]) else None
         case Some(Dir(_)) => EvalFrom(fs, done + [todo[0]], todo[1..], links)
         case Some(Link(absolute, target)) =>
           if links == 0 then None
           else EvalFrom(fs, if absolute then [] else done, target + todo[1..], links - 1)
  }

  function EvalSymlinks(fs: Node, p: Path): Option<Path> {
    EvalFrom(fs, [], p, MAX_LINKS)
  }

  // The request.

  datatype Image = Image(absolute: bool, parts: Path)

  datatype Resolved =
    | Accepted(root: Path, rel: Path)
    | AbsoluteRejected
    | EscapesLexically
    | RootMissing
    | FileMissing
    | EscapesThroughLink

  function FullPath(root: Path, img: Image): Path {
    Clean(Clean([], root), img.parts)
  }

  /** `resolvePath`, after the image name has been chosen. */
  function ResolvePath(fs: Node, root: Path, img: Image): Resolved {
    var full := FullPath(root, img);
    if img.absolute then AbsoluteRejected
    else if !WithinRoot(Clean([], root), full) then EscapesLexically
    else match EvalSymlinks(fs, root)
         case None => RootMissing
         case Some(realRoot) =>
           match EvalSymlinks(fs, full)
           case None => FileMissing
           case Some(realFull) =>
             if !WithinRoot(realRoot, realFull) then EscapesThroughLink
             else Accepted(realRoot, Rel(realRoot, realFull))
  }

  // The kernel's side.

  /** A directory entry on the way from the root down: its name and what it is. */
  datatype Dentry = Dentry(name: string, node: Node)

  function NodeOf(fs: Node, at: seq<Dentry>): Node {
    if at == [] then fs else at[|at| - 1].node
  }

  function Names(at: seq<Dentry>): (p: Path)
    ensures |p| == |at| && forall k :: 0 <= k < |at| ==> p[k] == at[k].name
  {
    seq(|at|, k requires 0 <= k < |at| => at[k].name)
  }

  /** Ordinary lookup: walks entries, going back up for "..", following every symlink. */
  function Find(fs: Node, at: seq<Dentry>, todo: Path, links: nat): Option<seq<Dentry>>
    decreases links, |todo|
  {
    var here := NodeOf(fs, at);
    if todo == [] then Some(at)
    else if todo[0] == ".." then Find(fs, if at == [] then at else at[..|at| - 1], todo[1..], links)
    else if IsSpecial(todo[0]) then Find(fs, at, todo[1..], links)
    else if !here.Dir? || todo[0] !in here.entries then None
    else
      var next := at + [Dentry(todo[0], here.entries[todo[0]])];
      match here.entries[todo[0]]
      case File(_) => if |todo| == 1 then Some(next) else None
      case Dir(_) => Find(fs, next, todo[1..], links)
      case Link(absolute, target) =>
        if links == 0 then None
        else Find(fs, if absolute then [] else at, target + todo[1..], links - 1)
  }

  /** The node a path leads to, and the place in the tree at which it is found. */
  function Lookup(fs: Node, p: Path, links: nat): Option<Node> {
    var found := Find(fs, [], p, links);
    if found.None? then None else Some(NodeOf(fs, found.value))
  }

  function Place(fs: Node, p: Path, links: nat): Option<Path> {
    var found := Find(fs, [], p, links);
    if found.None? then None else Some(Names(found.value))
  }

  /** The walk of `openTFTPFile` below an open directory: every component with O_NOFOLLOW. */
  function OpenBelow(dir: Node, rel: Path): Option<Node> {
    if rel == [] || IsSpecial(rel[0]) || !dir.Dir? || rel[0] !in dir.entries then None
    else
      var n := dir.entries[rel[0]];
      if n.Link? || (|rel| > 1 && !n.Dir?) then None
      else if |rel| == 1 then Some(n)
      else OpenBelow(n, rel[1..])
  }

  type Entries = map<string, Node>

  /**
   The same walk while the tree changes: `seen` are the entries of each opened
   directory at the moment of the next openat call.
   */
  function Walk(seen: seq<Entries>, rel: Path): Option<Node>
    requires |seen| == |rel|
  {
    if rel == [] || IsSpecial(rel[0]) || rel[0] !in seen[0] then None
    else
      var n := seen[0][rel[0]];
      if n.Link? || (|rel| > 1 && !n.Dir?) then None
      else if |rel| == 1 then Some(n)
      else Walk(seen[1..], rel[1..])
  }

  /** What the walk sees when nothing changes. */
  function Unchanged(dir: Node, rel: Path): (seen: seq<Entries>)
    ensures |seen| == |rel|
    decreases |rel|
  {
    if rel == [] then []
    else
      var entries := if dir.Dir? then dir.entries else map[];
      [entries] + Unchanged(if rel[0] in entries then entries[rel[0]] else dir, rel[1..])
  }

  /** `openTFTPFile`: the root itself is opened by ordinary lookup in tree fs. */
  method OpenTftpFile(fs: Node, rootDir: Path, rel: Path, links: nat, seen: seq<Entries>) returns (file: Option<Node>)
    requires |seen| == |rel|
    ensures file == (if Lookup(fs, rootDir, links).None? || !Lookup(fs, rootDir, links).value.Dir? then None
                       else Walk(seen, rel))
  {
    var root := Lookup(fs, rootDir, links);
    if root.None? || !root.value.Dir? {
      return None;
    }
    for i := 0 to |rel|
      invariant Walk(seen, rel) == Walk(seen[i..], rel[i..])
    {
      var part := rel[i];
      assert rel[i..][0] == part && rel[i..][1..] == rel[i + 1..];
      assert seen[i..][0] == seen[i] && seen[i..][1..] == seen[i + 1..];
      if part == "" || part == "." || part == ".." {
        return None;
      }
      if part !in seen[i] || seen[i][part].Link? || (i < |rel| - 1 && !seen[i][part].Dir?) {
        return None;
      }
      if i == |rel| - 1 {
        return Some(seen[i][part]);
      }
    }
    return None;
  }

  // Facts about paths.

  lemma {:induction false} AtConcat(n: Node, p: Path, q: Path)
    ensures At(n, p + q) == if At(n, p).None? then None else At(At(n, p).value, q)
    decreases |p|
  {
    if p == [] {
      assert p + q == q;
    } else {
      assert (p + q)[0] == p[0] && (p + q)[1..] == p[1..] + q;
      if n.Dir? && p[0] in n.entries {
        AtConcat(n.entries[p[0]], p[1..], q);
      }
    }
  }

  /** Between clean paths, being within the root means having it as a prefix. */
  lemma WithinRootIsPrefix(root: Path, full: Path)
    requires Proper(root) && Proper(full)
    ensures WithinRoot(root, full) <==> root <= full
    ensures root <= full ==> Rel(root, full) == if root == full then ["."] else full[|root|..]
  {
  }

  // EvalSymlinks yields a symlink-free path to what ordinary lookup finds.

  /** A chain of entries from the root down, through directories. */
  ghost predicate Chain(fs: Node, at: seq<Dentry>) {
    at == [] || (Chain(fs, at[..|at| - 1]) && IsEntry(NodeOf(fs, at[..|at| - 1]), at[|at| - 1]))
  }

  ghost predicate IsEntry(dir: Node, e: Dentry) {
    !IsSpecial(e.name) && dir.Dir? && e.name in dir.entries && e.node == dir.entries[e.name]
  }

  lemma ChainSnoc(fs: Node, at: seq<Dentry>, e: Dentry)
    requires Chain(fs, at) && IsEntry(NodeOf(fs, at), e)
    ensures Chain(fs, at + [e]) && Names(at + [e]) == Names(at) + [e.name]
  {
    assert (at + [e])[..|at|] == at;
  }

  lemma ChainFront(fs: Node, at: seq<Dentry>)
    requires Chain(fs, at) && at != []
    ensures Names(at[..|at| - 1]) == Parent(Names(at)) && Names(at) == Parent(Names(at)) + [at[|at| - 1].name]
  {
  }

  lemma AtSnoc(fs: Node, p: Path, c: string)
    ensures At(fs, p + [c]) ==
            if At(fs, p).Some? && At(fs, p).value.Dir? && c in At(fs, p).value.entries
            then Some(At(fs, p).value.entries[c]) else None
  {
    AtConcat(fs, p, [c]);
    assert [c][1..] == [];
  }

  lemma EntryIsAt(fs: Node, p: Path, dir: Node, e: Dentry)
    requires At(fs, p) == Some(dir) && Proper(p) && IsEntry(dir, e)
    ensures At(fs, p + [e.name]) == Some(e.node) && Proper(p + [e.name])
  {
    AtSnoc(fs, p, e.name);
  }

  /** A chain of entries ends at the node its names lead to. */
  lemma {:induction false} ChainIsAt(fs: Node, at: seq<Dentry>)
    requires Chain(fs, at)
    ensures Proper(Names(at)) && At(fs, Names(at)) == Some(NodeOf(fs, at))
    decreases |at|
  {
    if at != [] {
      var n := |at| - 1;
      ChainFront(fs, at);
      ChainIsAt(fs, at[..n]);
      EntryIsAt(fs, Names(at[..n]), NodeOf(fs, at[..n]), at[n]);
    }
  }

  lemma EvalStep(fs: Node, at: seq<Dentry>, c: string)
    requires Chain(fs, at) && NodeOf(fs, at).Dir?
    ensures At(fs, Names(at) + [c]) ==
            if c in NodeOf(fs, at).entries then Some(NodeOf(fs, at).entries[c]) else None
  {
    ChainIsAt(fs, at);
    AtSnoc(fs, Names(at), c);
  }

  /** One step of path rewriting, by the entry it meets. */
  lemma EvalNext(fs: Node, at: seq<Dentry>, todo: Path, links: nat)
    requires Chain(fs, at) && NodeOf(fs, at).Dir? && todo != [] && !IsSpecial(todo[0])
    ensures var c, here := todo[0], NodeOf(fs, at);
            EvalFrom(fs, Names(at), todo, links) ==
            if c !in here.entries then None
            else match here.entries[c]
                 case File(_) => if |todo| == 1 then Some(Names(at) + [c]) else None
                 case Dir(_) => EvalFrom(fs, Names(at) + [c], todo[1..], links)
                 case Link(absolute, target) =>
                   if links == 0 then None
                   else EvalFrom(fs, if absolute then [] else Names(at), target + todo[1..], links - 1)
  {
    EvalStep(fs, at, todo[0]);
  }

  /** Path rewriting and lookup end alike: nowhere, or at the same place, which is no symlink. */
  ghost predicate SameEnd(fs: Node, e: Option<Path>, f: Option<seq<Dentry>>) {
    if f.None? then e.None?
    else e == Some(Names(f.value)) && Chain(fs, f.value) && !NodeOf(fs, f.value).Link?
  }

  /** Path rewriting ends at the place lookup finds; no symlink is left in it, and its node is what lookup finds. */
  lemma {:induction false} EvalAgreesWithFind(fs: Node, at: seq<Dentry>, todo: Path, links: nat)
    requires Chain(fs, at) && NodeOf(fs, at).Dir? && fs.Dir?
    ensures SameEnd(fs, EvalFrom(fs, Names(at), todo, links), Find(fs, at, todo, links))
    decreases links, |todo|
  {
    if todo == [] {
    } else if todo[0] == ".." {
      UpAgain(fs, at);
      EvalAgreesWithFind(fs, if at == [] then at else at[..|at| - 1], todo[1..], links);
    } else if IsSpecial(todo[0]) {
      EvalAgreesWithFind(fs, at, todo[1..], links);
    } else {
      EvalNext(fs, at, todo, links);
      if todo[0] in NodeOf(fs, at).entries {
        EvalAgreesAtEntry(fs, at, todo, links, EvalFrom(fs, Names(at), todo, links), Find(fs, at, todo, links));
      }
    }
  }

  lemma UpAgain(fs: Node, at: seq<Dentry>)
    requires Chain(fs, at) && fs.Dir?
    ensures var up := if at == [] then at else at[..|at| - 1];
            Chain(fs, up) && NodeOf(fs, up).Dir? && Names(up) == Parent(Names(at))
  {
    if at != [] {
      ChainFront(fs, at);
    }
  }

  lemma {:induction false} EvalAgreesAtEntry(
    fs: Node, at: seq<Dentry>, todo: Path, links: nat, e: Option<Path>, f: Option<seq<Dentry>>)
    requires Chain(fs, at) && NodeOf(fs, at).Dir? && fs.Dir? && todo != [] && !IsSpecial(todo[0])
    requires todo[0] in NodeOf(fs, at).entries
    requires e == EvalFrom(fs, Names(at), todo, links) && f == Find(fs, at, todo, links)
    ensures SameEnd(fs, e, f)
    decreases links, |todo|, 0
  {
    var entry := Dentry(todo[0], NodeOf(fs, at).entries[todo[0]]);
    EvalNext(fs, at, todo, links);
    ChainSnoc(fs, at, entry);
    match entry.node
    case File(_) =>
    case Dir(_) => EvalAgreesWithFind(fs, at + [entry], todo[1..], links);
    case Link(absolute, target) =>
      if links > 0 {
        if absolute {
          assert Names([]) == [];
          EvalAgreesWithFind(fs, [], target + todo[1..], links - 1);
        } else {
          EvalAgreesWithFind(fs, at, target + todo[1..], links - 1);
        }
      }
  }

  /** `EvalSymlinks` gives the place at which ordinary lookup arrives, as a path without symlinks. */
  lemma EvalAgreesWithLookup(fs: Node, p: Path, links: nat)
    requires fs.Dir?
    ensures EvalFrom(fs, [], p, links) == Place(fs, p, links)
    ensures var e, l := EvalFrom(fs, [], p, links), Lookup(fs, p, links);
            && (e.None? <==> l.None?)
            && (e.Some? ==> Proper(e.value) && At(fs, e.value) == l && !l.value.Link?)
  {
    assert Names([]) == [];
    EvalAgreesWithFind(fs, [], p, links);
    var found := Find(fs, [], p, links);
    if found.Some? {
      ChainIsAt(fs, found.value);
    }
  }

  /** A symlink-free path is looked up without spending any link, and found at its own place. */
  lemma {:induction false} FindOfPlainPath(fs: Node, at: seq<Dentry>, todo: Path, links: nat)
    requires Chain(fs, at) && Proper(todo)
    requires At(NodeOf(fs, at), todo).Some? && !At(NodeOf(fs, at), todo).value.Link?
    ensures var found := Find(fs, at, todo, links);
            found.Some? && Names(found.value) == Names(at) + todo
            && Some(NodeOf(fs, found.value)) == At(NodeOf(fs, at), todo)
    decreases |todo|
  {
    if todo == [] {
      assert Names(at) + todo == Names(at);
    } else {
      var e := Dentry(todo[0], NodeOf(fs, at).entries[todo[0]]);
      ChainSnoc(fs, at, e);
      assert Names(at) + todo == Names(at + [e]) + todo[1..];
      if e.node.Dir? {
        FindOfPlainPath(fs, at + [e], todo[1..], links);
      } else {
        assert todo[1..] == [] && todo == [todo[0]];
      }
    }
  }

  lemma LookupOfPlainPath(fs: Node, p: Path, links: nat)
    requires Proper(p) && At(fs, p).Some? && !At(fs, p).value.Link?
    ensures Lookup(fs, p, links) == At(fs, p) && Place(fs, p, links) == Some(p)
  {
    FindOfPlainPath(fs, [], p, links);
    assert Names([]) + p == p;
  }

  /** Two lookups that succeed agree, however many symlinks each was willing to follow. */
  lemma {:induction false} LinkLimitIsIrrelevant(fs: Node, at: seq<Dentry>, todo: Path, few: nat, many: nat)
    requires few <= many && Find(fs, at, todo, few).Some?
    ensures Find(fs, at, todo, many) == Find(fs, at, todo, few)
    decreases few, |todo|
  {
    var here := NodeOf(fs, at);
    if todo == [] {
    } else if todo[0] == ".." {
      LinkLimitIsIrrelevant(fs, if at == [] then at else at[..|at| - 1], todo[1..], few, many);
    } else if IsSpecial(todo[0]) {
      LinkLimitIsIrrelevant(fs, at, todo[1..], few, many);
    } else {
      match here.entries[todo[0]]
      case File(_) =>
      case Dir(_) => LinkLimitIsIrrelevant(fs, at + [Dentry(todo[0], here.entries[todo[0]])], todo[1..], few, many);
      case Link(absolute, target) =>
        LinkLimitIsIrrelevant(fs, if absolute then [] else at, target + todo[1..], few - 1, many - 1);
    }
  }

  // The no-follow walk.

  /** Success means that no component on the way is a symlink, and yields the node at that very place. */
  lemma {:induction false} OpenBelowIsAt(dir: Node, rel: Path)
    ensures OpenBelow(dir, rel).Some? <==>
              && rel != [] && Proper(rel) && At(dir, rel).Some?
              && forall k :: 1 <= k <= |rel| ==> At(dir, rel[..k]).Some? && !At(dir, rel[..k]).value.Link?
    ensures OpenBelow(dir, rel).Some? ==> OpenBelow(dir, rel) == At(dir, rel)
    decreases |rel|
  {
    if rel != [] && !IsSpecial(rel[0]) && dir.Dir? && rel[0] in dir.entries {
      var n := dir.entries[rel[0]];
      assert rel[..1][1..] == [];
      OpenBelowIsAt(n, rel[1..]);
      forall k | 1 <= k <= |rel|
        ensures At(dir, rel[..k]) == At(n, rel[1..][..k - 1])
      {
        assert rel[..k][1..] == rel[1..][..k - 1];
      }
      if |rel| > 1 {
        assert forall k :: 1 <= k <= |rel[1..]| ==> At(n, rel[1..][..k]) == At(dir, rel[..k + 1]);
      }
    }
  }

  lemma RelSplits(root: Path, full: Path)
    requires Proper(root) && Proper(full) && root <= full
    ensures var rel := Rel(root, full);
            var below := if rel == ["."] then [] else rel;
            (rel == ["."] || Proper(rel)) && Proper(below) && full == root + below
  {
    WithinRootIsPrefix(root, full);
    if root != full {
      var below := full[|root|..];
      assert Proper(below) && full == root + below;
      assert below[0] == full[|root|] && !IsSpecial(full[|root|]);
    }
  }

  /** The two real paths behind an accepted request. */
  lemma AcceptedPaths(fs: Node, root: Path, img: Image) returns (realRoot: Path, realFull: Path)
    requires fs.Dir? && ResolvePath(fs, root, img).Accepted?
    ensures EvalSymlinks(fs, root) == Some(realRoot) && EvalSymlinks(fs, FullPath(root, img)) == Some(realFull)
    ensures Proper(realRoot) && Proper(realFull) && realRoot <= realFull
    ensures ResolvePath(fs, root, img) == Accepted(realRoot, Rel(realRoot, realFull))
  {
    realRoot, realFull := EvalSymlinks(fs, root).value, EvalSymlinks(fs, FullPath(root, img)).value;
    EvalAgreesWithLookup(fs, root, MAX_LINKS);
    EvalAgreesWithLookup(fs, FullPath(root, img), MAX_LINKS);
    WithinRootIsPrefix(realRoot, realFull);
  }

  /**
   What an accepted request means: "." or proper components below the real root,
   naming, without any symlink, just what ordinary lookup of root/img finds.
   */
  lemma AcceptedMeansInside(fs: Node, root: Path, img: Image)
    requires fs.Dir? && ResolvePath(fs, root, img).Accepted?
    ensures var r := ResolvePath(fs, root, img);
            var below := if r.rel == ["."] then [] else r.rel;
            && !img.absolute && Clean([], root) <= FullPath(root, img)
            && (r.rel == ["."] || Proper(r.rel))
            && Proper(r.root) && Proper(below)
            && At(fs, r.root) == Lookup(fs, root, MAX_LINKS) && At(fs, r.root).Some? && !At(fs, r.root).value.Link?
            && At(fs, r.root + below) == Lookup(fs, FullPath(root, img), MAX_LINKS)
            && At(fs, r.root + below).Some? && !At(fs, r.root + below).value.Link?
  {
    var full := FullPath(root, img);
    CleanIsProper([], root);
    CleanIsProper(Clean([], root), img.parts);
    WithinRootIsPrefix(Clean([], root), full);
    EvalAgreesWithLookup(fs, root, MAX_LINKS);
    EvalAgreesWithLookup(fs, full, MAX_LINKS);
    var realRoot, realFull := AcceptedPaths(fs, root, img);
    RelSplits(realRoot, realFull);
  }

  lemma {:induction false} CleanIsProper(done: Path, p: Path)
    requires Proper(done)
    ensures Proper(Clean(done, p))
    decreases |p|
  {
    if p != [] {
      CleanIsProper(if p[0] == ".." then Parent(done) else if IsSpecial(p[0]) then done else done + [p[0]], p[1..]);
    }
  }

  /**
   In an unchanged tree the walk opens exactly what ordinary lookup of root/img
   reaches, however many symlinks either lookup may follow. A request for the
   root itself is accepted but cannot be opened.
   */
  lemma OpensWhatLookupFinds(fs: Node, root: Path, img: Image, links: nat)
    requires fs.Dir? && ResolvePath(fs, root, img).Accepted?
    ensures var r := ResolvePath(fs, root, img);
            var dir := Lookup(fs, r.root, links);
            && dir.Some?
            && OpenBelow(dir.value, r.rel) ==
               (if r.rel == ["."] then None else Lookup(fs, FullPath(root, img), MAX_LINKS))
            && (Lookup(fs, FullPath(root, img), links).Some? ==>
                  Lookup(fs, FullPath(root, img), links) == Lookup(fs, FullPath(root, img), MAX_LINKS))
  {
    var r, full := ResolvePath(fs, root, img), FullPath(root, img);
    AcceptedMeansInside(fs, root, img);
    LookupOfPlainPath(fs, r.root, links);
    if Lookup(fs, full, links).Some? {
      if links <= MAX_LINKS {
        LinkLimitIsIrrelevant(fs, [], full, links, MAX_LINKS);
      } else {
        LinkLimitIsIrrelevant(fs, [], full, MAX_LINKS, links);
      }
    }
    var dir := At(fs, r.root).value;
    if r.rel == ["."] {
      assert OpenBelow(dir, r.rel).None?;
    } else {
      AtConcat(fs, r.root, r.rel);
      OpenOfPlainPath(dir, r.rel);
    }
  }

  /** A proper, symlink-free path opens. */
  lemma OpenOfPlainPath(dir: Node, rel: Path)
    requires rel != [] && Proper(rel) && At(dir, rel).Some? && !At(dir, rel).value.Link?
    ensures OpenBelow(dir, rel) == At(dir, rel)
  {
  }

  /** With nothing changing, the walk is the one through a fixed tree. */
  lemma {:induction false} WalkUnchanged(dir: Node, rel: Path)
    ensures Walk(Unchanged(dir, rel), rel) == OpenBelow(dir, rel)
    decreases |rel|
  {
    if rel != [] && dir.Dir? && rel[0] in dir.entries {
      var n := dir.entries[rel[0]];
      WalkUnchanged(n, rel[1..]);
      assert Unchanged(dir, rel)[1..] == Unchanged(n, rel[1..]);
    }
  }

  /** At step i the component was there, was no link, and was a directory unless it is the last one. */
  ghost predicate StepOpens(seen: seq<Entries>, rel: Path, i: nat)
    requires i < |rel| == |seen|
  {
    && !IsSpecial(rel[i]) && rel[i] in seen[i] && !seen[i][rel[i]].Link?
    && (i < |rel| - 1 ==> seen[i][rel[i]].Dir?)
  }

  /**
   However the tree changes before and between the calls, the walk succeeds
   exactly when every step meets a proper component that is an entry of the
   directory opened before and no link, and it yields the last of them.
   */
  lemma {:induction false} WalkSucceedsIff(seen: seq<Entries>, rel: Path)
    requires |seen| == |rel|
    ensures Walk(seen, rel).Some? <==> rel != [] && forall i :: 0 <= i < |rel| ==> StepOpens(seen, rel, i)
    ensures Walk(seen, rel).Some? ==>
              var last := |rel| - 1;
              last >= 0 && rel[last] in seen[last] && Walk(seen, rel).value == seen[last][rel[last]]
    decreases |rel|
  {
    if |rel| == 1 {
      assert StepOpens(seen, rel, 0) <==> Walk(seen, rel).Some?;
    } else if |rel| > 1 {
      WalkSucceedsIff(seen[1..], rel[1..]);
      if StepOpens(seen, rel, 0) {
        assert Walk(seen, rel) == Walk(seen[1..], rel[1..]);
        assert forall i :: 1 <= i < |rel| ==> (StepOpens(seen, rel, i) <==> StepOpens(seen[1..], rel[1..], i - 1));
        assert forall i :: 0 <= i < |rel[1..]| ==> (StepOpens(seen[1..], rel[1..], i) <==> StepOpens(seen, rel, i + 1));
      } else {
        assert Walk(seen, rel).None?;
      }
    }
  }

  /** In particular a component that is a link when its turn comes makes the open fail. */
  lemma SwappedLinkFailsOpen(seen: seq<Entries>, rel: Path, i: nat)
    requires i < |rel| == |seen| && rel[i] in seen[i] && seen[i][rel[i]].Link?
    ensures Walk(seen, rel).None?
  {
    WalkSucceedsIff(seen, rel);
    assert !StepOpens(seen, rel, i);
  }
}
