/** The rewriting of paths under `/tmp` into a private directory, through a fixed buffer. */
module TmpRedirect {
  import opened Wrappers

  const PATH_MAX := 4096
  const TMP: string := "/tmp"

  datatype Errno = EACCES | ENAMETOOLONG

  /** What the function returns: its argument, the buffer, or null with an error. */
  datatype Answer = Argument | Storage | Null(errno: Errno)

  /** The text of a C string: no byte of it is zero. */
  predicate Text(s: string) { '\0' !in s }

  /** At or below a directory, by the text alone. */
  predicate Under(dir: string, path: string) {
    dir <= path && (|path| == |dir| || path[|dir|] == '/')
  }

  datatype Outcome = Keep | Move(path: string) | Fail(errno: Errno)

  /** What becomes of a path. */
  function Rewrite(path: string, root: Option<string>): Outcome {
    if !Under(TMP, path) then Keep
    else if root.None? || root.value == "" || root.value[0] != '/' then Fail(EACCES)
    else if Under(root.value, path) then Keep
    else if |root.value| + |path| - 4 > PATH_MAX - 1 then Fail(ENAMETOOLONG)
    else Move(root.value + path[4..])
  }

  /** The byte at a position, the final zero included. */
  function ByteAt(s: string, i: nat): char
    requires i <= |s|
  {
    if i < |s| then s[i] else '\0'
  }

  lemma TmpBytes(path: string)
    requires Text(path)
    ensures Under(TMP, path) <==>
      && ByteAt(path, 0) == '/' && ByteAt(path, 1) == 't' && ByteAt(path, 2) == 'm' && ByteAt(path, 3) == 'p'
      && (ByteAt(path, 4) == '\0' || ByteAt(path, 4) == '/')
  {
    if |path| >= 4 {
      assert TMP <= path <==> path[0] == '/' && path[1] == 't' && path[2] == 'm' && path[3] == 'p';
    }
  }

  /** Copy a text into the buffer from `at`; false when it does not fit before the last byte. */
  method Copy(text: string, from: nat, storage: array<char>, at: nat) returns (ok: bool, length: nat)
    requires storage.Length == PATH_MAX && from <= |text| && at < PATH_MAX
    modifies storage
    ensures ok <==> at + |text| - from <= PATH_MAX - 1
    ensures ok ==> length == at + |text| - from && storage[..length] == old(storage[..at]) + text[from..]
  {
    length := at;
    var index := from;
    while index < |text|
      invariant from <= index <= |text| && length == at + index - from <= PATH_MAX - 1
      invariant storage[..length] == old(storage[..at]) + text[from..index]
    {
      if length + 1 >= storage.Length { return false, length; }
      storage[length] := text[index];
      assert storage[..length + 1] == storage[..length] + [text[index]];
      assert text[from..index + 1] == text[from..index] + [text[index]];
      length := length + 1;
      index := index + 1;
    }
    assert text[from..index] == text[from..];
    ok := true;
  }

  /** How many bytes two texts share, at most `limit`. */
  method Common(path: string, root: string) returns (common: nat)
    ensures common <= |root| && common <= |path|
    ensures common == |root| <==> root <= path
  {
    common := 0;
    while common < |root| && common < |path| && path[common] == root[common]
      invariant common <= |root| && common <= |path| && root[..common] == path[..common]
    {
      assert root[..common + 1] == root[..common] + [root[common]];
      assert path[..common + 1] == path[..common] + [path[common]];
      common := common + 1;
    }
    if common == |root| { assert root[..common] == root; }
  }

  /** `rewriteTmp`. The buffer is the only memory written, and only within it. */
  method RewriteTmp(path: Option<string>, root: Option<string>, storage: array<char>) returns (answer: Answer)
    requires storage.Length == PATH_MAX && (path.Some? ==> Text(path.value)) && (root.Some? ==> Text(root.value))
    modifies storage
    ensures path.None? ==> answer == Argument
    ensures path.Some? ==>
      match Rewrite(path.value, root)
      case Keep => answer == Argument
      case Fail(e) => answer == Null(e)
      case Move(s) => answer == Storage && |s| < PATH_MAX && storage[..|s|] == s && storage[|s|] == '\0'
  {
    if path.None? { return Argument; }
    var p := path.value;
    TmpBytes(p);
    if ByteAt(p, 0) != '/' || ByteAt(p, 1) != 't' || ByteAt(p, 2) != 'm' || ByteAt(p, 3) != 'p' ||
       (ByteAt(p, 4) != '\0' && ByteAt(p, 4) != '/') {
      return Argument;
    }
    if root.None? || ByteAt(root.value, 0) != '/' { return Null(EACCES); }
    var r := root.value;
    var common := Common(p, r);
    if common == |r| && (ByteAt(p, common) == '\0' || ByteAt(p, common) == '/') { return Argument; }
    var ok, length := Copy(r, 0, storage, 0);
    if !ok { return Null(ENAMETOOLONG); }
    assert r[0..] == r && storage[..length] == r;
    ok, length := Copy(p, 4, storage, length);
    if !ok { return Null(ENAMETOOLONG); }
    storage[length] := '\0';
    assert storage[..length] == r + p[4..];
    return Storage;
  }

  predicate Usable(root: Option<string>) { root.Some? && root.value != "" && root.value[0] == '/' }

  /** What a call does, case by case: a path outside `/tmp`, or already in the private
      directory, is kept; without a usable directory or room the call fails; else what
      follows `/tmp` is kept behind the directory. */
  lemma RewriteMeans(path: string, root: Option<string>)
    ensures Rewrite(path, root).Keep? <==>
      !Under("/tmp", path) || (Usable(root) && Under(root.value, path))
    ensures Rewrite(path, root) == Fail(EACCES) <==> Under("/tmp", path) && !Usable(root)
    ensures Rewrite(path, root).Move? ==>
      exists rest :: path == "/tmp" + rest && Rewrite(path, root).path == root.value + rest
    ensures Under("/tmp", path) && Usable(root) && !Under(root.value, path) ==>
      (Rewrite(path, root) == Fail(ENAMETOOLONG) <==> |root.value| + |path| > 4095 + 4)
  {
    if Rewrite(path, root).Move? {
      var rest := path[4..];
      assert path == "/tmp" + rest;
      assert Rewrite(path, root).path == root.value + rest;
    }
  }

  /** The path in effect after a call. */
  function Effective(path: string, root: Option<string>): Option<string> {
    match Rewrite(path, root)
    case Keep => Some(path)
    case Move(s) => Some(s)
    case Fail(_) => None
  }

  /** What comes out is outside `/tmp` or inside the private directory. */
  lemma Confined(path: string, root: Option<string>)
    requires Effective(path, root).Some?
    ensures var s := Effective(path, root).value; !Under(TMP, s) || (root.Some? && Under(root.value, s))
  {
    if Under(TMP, path) && !Under(root.value, path) {
      var s := root.value + path[4..];
      assert s[..|root.value|] == root.value;
    }
  }

  /** Rewriting again changes nothing. */
  lemma RewriteTwice(path: string, root: Option<string>)
    requires Effective(path, root).Some?
    ensures Rewrite(Effective(path, root).value, root) == Keep
  {
    Confined(path, root);
  }
}
