/**
 Which requests the TFTP jail accepts, in terms of ordinary lookup and of places
 in the tree, and that ordinary files below the root are served.
 */
module TftpAccept {
  import opened Common
  import opened TftpJail

  /** A path as read from its end: ".." takes back the component before it, "." and empty ones say nothing. */
  function Lexical(p: Path): Path {
    if p == [] then []
    else
      var before, c := Lexical(p[..|p| - 1]), p[|p| - 1];
      if c == ".." then if before == [] then [] else before[..|before| - 1]
      else if c == "." || c == "" then before
      else before + [c]
  }

  lemma {:induction false} CleanConcat(done: Path, p: Path, q: Path)
    ensures Clean(done, p + q) == Clean(Clean(done, p), q)
    decreases |p|
  {
    if p == [] {
      assert p + q == q;
    } else {
      assert (p + q)[0] == p[0] && (p + q)[1..] == p[1..] + q;
      CleanConcat(if p[0] == ".." then Parent(done) else if IsSpecial(p[0]) then done else done + [p[0]], p[1..], q);
    }
  }

  lemma CleanOne(done: Path, c: string)
    ensures Clean(done, [c]) ==
            if c == ".." then (if done == [] then [] else done[..|done| - 1])
            else if c == "." || c == "" then done
            else done + [c]
  {
    assert [c][1..] == [];
  }

  lemma {:induction false} CleanIsLexical(p: Path)
    ensures Clean([], p) == Lexical(p)
    decreases |p|
  {
    if p != [] {
      var front, c := p[..|p| - 1], p[|p| - 1];
      assert p == front + [c];
      CleanIsLexical(front);
      CleanConcat([], front, [c]);
      CleanOne(Clean([], front), c);
    }
  }

  /** The two cleaning steps of a request amount to reading root and image as one path. */
  lemma FullPathIsLexical(root: Path, img: Image)
    ensures FullPath(root, img) == Lexical(root + img.parts)
  {
    CleanConcat([], root, img.parts);
    CleanIsLexical(root + img.parts);
  }

  lemma {:induction false} LexicalIsProper(p: Path)
    ensures Proper(Lexical(p))
    decreases |p|
  {
    if p != [] {
      LexicalIsProper(p[..|p| - 1]);
    }
  }

  /** A path without special components stays as it is. */
  lemma {:induction false} LexicalOfProper(p: Path)
    requires Proper(p)
    ensures Lexical(p) == p
    decreases |p|
  {
    if p != [] {
      assert forall k :: 0 <= k < |p| - 1 ==> p[..|p| - 1][k] == p[k];
      LexicalOfProper(p[..|p| - 1]);
      assert p == p[..|p| - 1] + [p[|p| - 1]];
    }
  }

  /**
   The answer to every request. It is accepted exactly when the image is not
   absolute, does not climb out of the root as written, lookup finds the root
   and root/img, and the place found lies at or below the place of the root; the
   answer names both.
   */
  lemma AcceptedIff(fs: Node, root: Path, img: Image)
    requires fs.Dir?
    ensures var r := ResolvePath(fs, root, img);
            var top, full := Lexical(root), Lexical(root + img.parts);
            var rootPlace, place := Place(fs, root, 255), Place(fs, full, 255);
            && (r.Accepted? <==>
                  && !img.absolute && top <= full && rootPlace.Some? && place.Some? && rootPlace.value <= place.value)
            && (r.Accepted? ==>
                  && r.root == rootPlace.value
                  && r.rel == if place == rootPlace then ["."] else place.value[|rootPlace.value|..])
            && (r == AbsoluteRejected <==> img.absolute)
            && (r == EscapesLexically <==> !img.absolute && !(top <= full))
            && (r == RootMissing <==> !img.absolute && top <= full && rootPlace.None?)
            && (r == FileMissing <==> !img.absolute && top <= full && rootPlace.Some? && place.None?)
  {
    var full := Lexical(root + img.parts);
    FullPathIsLexical(root, img);
    CleanIsLexical(root);
    LexicalIsProper(root);
    LexicalIsProper(root + img.parts);
    WithinRootIsPrefix(Lexical(root), full);
    EvalAgreesWithLookup(fs, root, 255);
    EvalAgreesWithLookup(fs, full, 255);
    var realRoot, realFull := EvalSymlinks(fs, root), EvalSymlinks(fs, full);
    if realRoot.Some? && realFull.Some? {
      WithinRootIsPrefix(realRoot.value, realFull.value);
    }
  }

  lemma {:induction false} NothingFoundBelow(fs: Node, at: seq<Dentry>, todo: Path, more: Path, links: nat, id: nat)
    requires Proper(todo) && Proper(more) && todo != [] && more != []
    requires At(NodeOf(fs, at), todo) == Some(File(id))
    ensures Find(fs, at, todo + more, links) == None
    decreases |todo|
  {
    assert (todo + more)[0] == todo[0] && (todo + more)[1..] == todo[1..] + more;
    var e := Dentry(todo[0], NodeOf(fs, at).entries[todo[0]]);
    if |todo| > 1 {
      assert At(e.node, todo[1..]) == Some(File(id));
      NothingFoundBelow(fs, at + [e], todo[1..], more, links, id);
    }
  }

  /** A file is no directory: a request that goes on below one finds nothing. */
  lemma NothingBelowAFile(fs: Node, root: Path, file: Path, more: Path, id: nat)
    requires fs.Dir? && Proper(root) && Proper(file) && Proper(more) && file != [] && more != []
    requires At(fs, root + file) == Some(File(id))
    ensures ResolvePath(fs, root, Image(false, file + more)) == FileMissing
  {
    var below := root + file;
    assert root + (file + more) == below + more;
    NothingFoundBelow(fs, [], below, more, 255, id);
    RootIsPlain(fs, root, file);
    LexicalOfProper(root);
    LexicalOfProper(below + more);
    AcceptedIff(fs, root, Image(false, file + more));
  }

  lemma RootIsPlain(fs: Node, root: Path, below: Path)
    requires Proper(root) && below != [] && At(fs, root + below).Some?
    ensures Place(fs, root, 255) == Some(root)
  {
    AtConcat(fs, root, below);
    LookupOfPlainPath(fs, root, 255);
  }

  /**
   A file below the root with no symlink on the way is served: every request
   that spells its path below the root is accepted and opens it, if nothing
   changes meanwhile.
   */
  lemma PlainFileIsServed(fs: Node, root: Path, img: Image, below: Path, id: nat)
    requires fs.Dir? && Proper(root) && Proper(below) && below != []
    requires At(fs, root + below) == Some(File(id))
    requires !img.absolute && Lexical(root + img.parts) == root + below
    ensures ResolvePath(fs, root, img) == Accepted(root, below)
    ensures At(fs, root).Some? && Lookup(fs, root, 0) == At(fs, root)
    ensures Walk(Unchanged(At(fs, root).value, below), below) == Some(File(id))
  {
    var full := root + below;
    AtConcat(fs, root, below);
    LexicalOfProper(root);
    assert Proper(full);
    LookupOfPlainPath(fs, root, 255);
    LookupOfPlainPath(fs, root, 0);
    LookupOfPlainPath(fs, full, 255);
    AcceptedIff(fs, root, img);
    assert full[|root|..] == below;
    OpenOfPlainPath(At(fs, root).value, below);
    WalkUnchanged(At(fs, root).value, below);
  }

  /** In particular the request that names the path as it is. */
  lemma ProperPathIsServed(fs: Node, root: Path, below: Path, id: nat)
    requires fs.Dir? && Proper(root) && Proper(below) && below != []
    requires At(fs, root + below) == Some(File(id))
    ensures ResolvePath(fs, root, Image(false, below)) == Accepted(root, below)
    ensures At(fs, root).Some? && Walk(Unchanged(At(fs, root).value, below), below) == Some(File(id))
  {
    LexicalOfProper(root + below);
    PlainFileIsServed(fs, root, Image(false, below), below, id);
  }
}
