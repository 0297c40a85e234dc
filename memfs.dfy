/** The worker's in-memory file system (Emscripten's `FS`), as far as the core uses it:
    regular files with byte content, directories, and injected write failures.
    Paths are absolute strings; a node's parent is the text before its last `/`,
    and the empty string stands for the root directory. Path normalisation
    (`.`, `..`, repeated `/`) is not modelled: such paths simply fail. */
module MemFs {
  import opened Common

  /** `writeFaults` is the set of paths an injected fault makes every write to fail. */
  datatype Fs = Fs(files: map<string, Bytes>, dirs: set<string>, writeFaults: set<string>)

  datatype Kind = RegularFile | Directory

  /** Names that cannot be the last segment of a node. */
  predicate GoodName(n: string) {
    n != "" && n != "." && n != ".."
  }

  /** The directory that contains `p`: the text before its last `/` ("" is the root). */
  function Parent(p: string): (r: string)
    ensures '/' in p ==> p == r + "/" + LastSegment(p)
    ensures |r| < |p| || p == ""
  {
    if '/' in p then p[..|p| - |LastSegment(p)| - 1] else ""
  }

  /** `d + "/" + n` names the entry `n` of directory `d`. */
  lemma ChildPath(d: string, n: string)
    requires '/' !in n
    ensures LastSegment(d + "/" + n) == n
    ensures Parent(d + "/" + n) == d
  {
    LastSegmentAfterSlash(d, n);
    var p := d + "/" + n;
    assert '/' in p by { assert p[|d|] == '/'; }
    assert p[..|p| - |n| - 1] == d;
  }

  /** `p` lies strictly inside directory `d`. */
  predicate Under(p: string, d: string) {
    d + "/" <= p
  }

  /** `p` could be a node of `fs`: absolute, with a proper name, inside the root or an existing directory. */
  predicate Attached(fs: Fs, p: string) {
    && |p| > 0 && p[0] == '/'
    && GoodName(LastSegment(p))
    && (Parent(p) == "" || Parent(p) in fs.dirs)
  }

  predicate IsNode(fs: Fs, p: string) {
    p in fs.files || p in fs.dirs
  }

  /** The tree invariant: no path is both a file and a directory, and every node hangs off the root. */
  ghost predicate Valid(fs: Fs) {
    && fs.files.Keys !! fs.dirs
    && (forall p {:trigger Attached(fs, p)} :: p in fs.files ==> Attached(fs, p))
    && (forall d {:trigger Attached(fs, d)} :: d in fs.dirs ==> Attached(fs, d))
  }

  /** In a valid tree every proper prefix of a node that ends before a `/` is a directory. */
  lemma {:induction false} AncestorIsDir(fs: Fs, p: string, k: nat)
    requires Valid(fs) && IsNode(fs, p)
    requires 0 < k < |p| && p[k] == '/'
    ensures p[..k] in fs.dirs
    decreases |p|
  {
    var q := Parent(p);
    var n := LastSegment(p);
    assert '/' in p;
    assert p == q + "/" + n;
    assert Attached(fs, p);
    if k == |q| {
      assert p[..k] == q;
    } else {
      assert k < |q|;
      assert q[k] == p[k];
      AncestorIsDir(fs, q, k);
      assert q[..k] == p[..k];
    }
  }

  /** The names `FS.readdir` lists for directory `d`, besides "." and "..". */
  function Children(fs: Fs, d: string): set<string> {
    set q | q in fs.files.Keys + fs.dirs && '/' in q && Parent(q) == d :: LastSegment(q)
  }

  /** UTF-8 encoding of a string, as `FS.writeFile` stores text content. */
  function Utf8Encode(s: string): (r: Bytes)
    ensures |s| <= |r| <= 4 * |s|
  {
    if s == [] then [] else Utf8Char(s[0]) + Utf8Encode(s[1..])
  }

  function Utf8Char(c: char): (r: Bytes)
    ensures 1 <= |r| <= 4
    ensures (c as int < 0x80) <==> |r| == 1
  {
    var n := c as int;
    if n < 0x80 then [n]
    else if n < 0x800 then [0xC0 + n / 0x40, 0x80 + n % 0x40]
    else if n < 0x1_0000 then [0xE0 + n / 0x1000, 0x80 + (n / 0x40) % 0x40, 0x80 + n % 0x40]
    else [0xF0 + n / 0x4_0000, 0x80 + (n / 0x1000) % 0x40, 0x80 + (n / 0x40) % 0x40, 0x80 + n % 0x40]
  }

  /** `FS.writeFile(p, data)`: create or overwrite a regular file; `None` when it throws. */
  function WriteFile(fs: Fs, p: string, data: Bytes): (r: Option<Fs>)
    ensures r.Some? <==> Attached(fs, p) && p !in fs.dirs && p !in fs.writeFaults
    ensures r.Some? ==> r.value == fs.(files := fs.files[p := data])
  {
    if Attached(fs, p) && p !in fs.dirs && p !in fs.writeFaults
    then Some(fs.(files := fs.files[p := data]))
    else None
  }

  /** `FS.stat(p)`: the kind of node at `p`; `None` when it throws. */
  function Stat(fs: Fs, p: string): (r: Option<Kind>)
    ensures r.Some? <==> IsNode(fs, p)
    ensures r == Some(Directory) <==> p in fs.dirs && p !in fs.files
  {
    if p in fs.files then Some(RegularFile) else if p in fs.dirs then Some(Directory) else None
  }

  /** `FS.readFile(p, {encoding: 'binary'})`; `None` when it throws. */
  function ReadFile(fs: Fs, p: string): (r: Option<Bytes>)
    ensures r.Some? <==> p in fs.files
    ensures r.Some? ==> r.value == fs.files[p]
  {
    if p in fs.files then Some(fs.files[p]) else None
  }

  /** `FS.mkdir(p)`; `None` when it throws (the name exists, or its parent does not). */
  function Mkdir(fs: Fs, p: string): (r: Option<Fs>)
    ensures r.Some? <==> Attached(fs, p) && !IsNode(fs, p)
    ensures r.Some? ==> r.value == fs.(dirs := fs.dirs + {p})
  {
    if Attached(fs, p) && !IsNode(fs, p) then Some(fs.(dirs := fs.dirs + {p})) else None
  }

  /** `FS.unlink(p)`: remove a regular file. */
  function Unlink(fs: Fs, p: string): (r: Option<Fs>)
    ensures r.Some? <==> p in fs.files
    ensures r.Some? ==> r.value == fs.(files := fs.files - {p})
  {
    if p in fs.files then Some(fs.(files := fs.files - {p})) else None
  }

  /** `FS.rmdir(p)`: remove an empty directory. */
  function Rmdir(fs: Fs, p: string): (r: Option<Fs>)
    ensures r.Some? <==> p in fs.dirs && Children(fs, p) == {}
    ensures r.Some? ==> r.value == fs.(dirs := fs.dirs - {p})
  {
    if p in fs.dirs && Children(fs, p) == {} then Some(fs.(dirs := fs.dirs - {p})) else None
  }

  /** `FS.readdir(d)`: its entry names, "." and ".." included. */
  function ReadDir(fs: Fs, d: string): (r: Option<set<string>>)
    ensures r.Some? <==> d in fs.dirs
    ensures r.Some? ==> r.value == {".", ".."} + Children(fs, d)
  {
    if d in fs.dirs then Some({".", ".."} + Children(fs, d)) else None
  }

  /** `FS.readdir` never lists a child called "." or "..", nor one with a `/`. */
  lemma ChildrenAreGoodNames(fs: Fs, d: string)
    requires Valid(fs)
    ensures forall n :: n in Children(fs, d) ==> GoodName(n) && '/' !in n
  {
    forall n | n in Children(fs, d) ensures GoodName(n) && '/' !in n {
      ChildIsNode(fs, d, n);
    }
  }

  /** Every entry `FS.readdir` reports for a directory of a valid tree is a node of it. */
  lemma ChildIsNode(fs: Fs, d: string, n: string)
    requires Valid(fs) && n in Children(fs, d)
    ensures '/' !in n && GoodName(n)
    ensures IsNode(fs, d + "/" + n)
  {
    var q :| q in fs.files.Keys + fs.dirs && '/' in q && Parent(q) == d && LastSegment(q) == n;
    assert Attached(fs, q);
  }

  /** A successful write keeps the tree valid: it creates no directory and writes only where a file may be. */
  lemma WriteFileValid(fs: Fs, p: string, data: Bytes)
    requires Valid(fs) && WriteFile(fs, p, data).Some?
    ensures Valid(WriteFile(fs, p, data).value)
  {
    var fs' := WriteFile(fs, p, data).value;
    forall q | IsNode(fs', q) ensures Attached(fs', q) {
      if q != p {
        assert Attached(fs, q);
      }
    }
  }

  /** After a successful write, reading `p` gives the data written and every other path reads as before. */
  lemma WriteThenRead(fs: Fs, p: string, data: Bytes, q: string)
    requires WriteFile(fs, p, data).Some?
    ensures ReadFile(WriteFile(fs, p, data).value, q) == if q == p then Some(data) else ReadFile(fs, q)
    ensures Stat(WriteFile(fs, p, data).value, q) == if q == p then Some(RegularFile) else Stat(fs, q)
  {
  }

  /** After a successful `mkdir`, `p` is a directory listed by its parent, and every other path keeps its kind. */
  lemma MkdirThenStat(fs: Fs, p: string, q: string)
    requires Mkdir(fs, p).Some?
    ensures Stat(Mkdir(fs, p).value, q) == if q == p then Some(Directory) else Stat(fs, q)
    ensures '/' in p ==> LastSegment(p) in Children(Mkdir(fs, p).value, Parent(p))
  {
  }

  /** A successful `mkdir` keeps the tree valid. */
  lemma MkdirValid(fs: Fs, p: string)
    requires Valid(fs) && Mkdir(fs, p).Some?
    ensures Valid(Mkdir(fs, p).value)
  {
    var fs' := Mkdir(fs, p).value;
    forall q | IsNode(fs', q) ensures Attached(fs', q) {
      if q != p {
        assert Attached(fs, q);
      }
    }
  }

  /** Removing a regular file keeps the tree valid: no node lives inside a file. */
  lemma UnlinkValid(fs: Fs, p: string)
    requires Valid(fs) && p in fs.files
    ensures Valid(Unlink(fs, p).value)
  {
    var fs' := Unlink(fs, p).value;
    forall q | IsNode(fs', q) ensures Attached(fs', q) {
      assert Attached(fs, q);
    }
  }

  /** Removing an empty directory keeps the tree valid. */
  lemma RmdirValid(fs: Fs, p: string)
    requires Valid(fs) && p in fs.dirs && Children(fs, p) == {}
    ensures Valid(Rmdir(fs, p).value)
  {
    var fs' := Rmdir(fs, p).value;
    forall q | IsNode(fs', q) ensures Attached(fs', q) {
      assert Attached(fs, q);
      ListedInParent(fs, q);
    }
  }

  /** A node's name is listed by its parent directory. */
  lemma ListedInParent(fs: Fs, q: string)
    requires IsNode(fs, q) && '/' in q
    ensures LastSegment(q) in Children(fs, Parent(q))
  {
  }
}
