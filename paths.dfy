/**
 * Creating the directories leading to a file: every proper prefix of the
 * path that ends just before a '/' is passed to `mkdir`, shortest first; the
 * last component, the file itself, is never created. `mkdir` is an oracle.
 */
module Paths {

  /** What one `mkdir` call reports. */
  datatype MkdirResult = MkdirOk | MkdirExists | MkdirError

  /** A message about one directory: created, or an error other than "it
      already exists". */
  datatype Note = Created(dir: string) | CreateFailed(dir: string)

  /** The directories attempted while scanning the first `n` characters:
      `f[..i]` for every position `1 <= i < n` holding a '/'. A '/' in the
      first position is the root and is never passed to `mkdir`. */
  function Dirs(f: string, n: nat): seq<string>
    requires n <= |f|
  {
    if n == 0 then []
    else Dirs(f, n - 1) + (if n - 1 >= 1 && f[n - 1] == '/' then [f[..n - 1]] else [])
  }

  /** The messages written for the attempted directories. */
  function Notes(made: seq<string>, mkdir: string -> MkdirResult): seq<Note>
  {
    if made == [] then []
    else
      Notes(made[..|made| - 1], mkdir) + NoteFor(made[|made| - 1], mkdir)
  }

  /** The message about one `mkdir` call: none when the directory already
      exists. */
  function NoteFor(d: string, mkdir: string -> MkdirResult): (n: seq<Note>)
    ensures |n| <= 1
  {
    match mkdir(d)
    case MkdirOk => [Created(d)]
    case MkdirError => [CreateFailed(d)]
    case MkdirExists => []
  }

  /** Creates one directory and reports the outcome. */
  method MakeDir(d: string, mkdir: string -> MkdirResult) returns (note: seq<Note>)
    ensures note == NoteFor(d, mkdir)
  {
    match mkdir(d) {
      case MkdirOk => note := [Created(d)];
      case MkdirError => note := [CreateFailed(d)];
      case MkdirExists => note := [];
    }
  }

  /** `f` is a C string: it holds no NUL character. */
  predicate NoNul(f: string)
  {
    forall i :: 0 <= i < |f| ==> f[i] != '\0'
  }

  /** Walks `filename` copying it into a 1024-byte buffer and calls `mkdir`
      on the buffer each time a '/' is reached (except at the start).
      `mkdir(d)` is what `mkdir` reports for directory `d`; `made` lists the
      directories passed to it, in call order. The buffer holds no
      terminator beyond the copied path, so the path must fit in it. */
  method CreatePath(filename: string, mkdir: string -> MkdirResult) returns (made: seq<string>, notes: seq<Note>)
    requires |filename| <= 1024
    requires NoNul(filename)
    ensures made == Dirs(filename, |filename|)
    ensures notes == Notes(made, mkdir)
  {
    var pathbuff := new char[1024];
    // The C code keeps two pointers, into `filename` and into the buffer;
    // they always sit at the same offset, so one index `src` stands for both.
    var src := 0;
    made, notes := [], [];
    if src < |filename| && filename[src] == '/' {
      CopyChar(pathbuff, filename, src);
      src := src + 1;
    }
    while src < |filename|
      invariant 0 <= src <= |filename|
      invariant pathbuff[..src] == filename[..src]
      invariant src == 0 ==> filename == [] || filename[0] != '/'
      invariant made == Dirs(filename, src)
      invariant notes == Notes(made, mkdir)
    {
      src, made, notes := Component(pathbuff, filename, mkdir, src, made, notes);
    }
  }

  /** One turn of the outer loop of CreatePath: copy up to the next '/' and,
      if there is one, create the directory ending before it and copy the
      '/'. */
  method Component(pathbuff: array<char>, filename: string, mkdir: string -> MkdirResult,
                   src0: nat, made0: seq<string>, notes0: seq<Note>)
    returns (src: nat, made: seq<string>, notes: seq<Note>)
    requires |filename| <= pathbuff.Length && src0 < |filename|
    requires pathbuff[..src0] == filename[..src0]
    requires src0 == 0 ==> filename[0] != '/'
    requires made0 == Dirs(filename, src0) && notes0 == Notes(made0, mkdir)
    modifies pathbuff
    ensures src0 < src <= |filename|
    ensures pathbuff[..src] == filename[..src]
    ensures made == Dirs(filename, src) && notes == Notes(made, mkdir)
  {
    made, notes := made0, notes0;
    src := CopyRun(pathbuff, filename, src0);
    DirsRun(filename, src0, src);
    if src < |filename| && filename[src] == '/' {
      // The C code puts a terminator here and overwrites it with the '/'
      // right after mkdir; the slice below is that terminated string.
      var dir := pathbuff[..src];
      DirsSlash(filename, src);
      NotesStep(made, dir, mkdir);
      made := made + [dir];
      var note := MakeDir(dir, mkdir);
      notes := notes + note;
      CopyChar(pathbuff, filename, src);
      src := src + 1;
    }
  }

  /** The inner loop of CreatePath: copy characters up to the next '/' or
      the end of the path. */
  method CopyRun(pathbuff: array<char>, filename: string, src0: nat) returns (src: nat)
    requires |filename| <= pathbuff.Length && src0 <= |filename|
    requires pathbuff[..src0] == filename[..src0]
    modifies pathbuff
    ensures src0 <= src <= |filename|
    ensures pathbuff[..src] == filename[..src]
    ensures forall k :: src0 <= k < src ==> filename[k] != '/'
    ensures src == |filename| || filename[src] == '/'
  {
    src := src0;
    while src < |filename| && filename[src] != '/'
      invariant src0 <= src <= |filename|
      invariant pathbuff[..src] == filename[..src]
      invariant forall k :: src0 <= k < src ==> filename[k] != '/'
    {
      CopyChar(pathbuff, filename, src);
      src := src + 1;
    }
  }

  /** `*dst++ = *src++` with dst and src at the same offset: the copied
      prefix grows by one character. */
  method CopyChar(pathbuff: array<char>, filename: string, n: nat)
    requires n < pathbuff.Length && n < |filename|
    requires pathbuff[..n] == filename[..n]
    modifies pathbuff
    ensures pathbuff[..n + 1] == filename[..n + 1]
  {
    pathbuff[n] := filename[n];
    assert pathbuff[..n + 1] == pathbuff[..n] + [filename[n]];
  }

  /** A run of characters other than '/' (or a '/' at the very start) adds
      no directory. */
  lemma {:induction false} DirsRun(f: string, a: nat, b: nat)
    requires a <= b <= |f|
    requires forall k :: a <= k < b ==> k == 0 || f[k] != '/'
    ensures Dirs(f, b) == Dirs(f, a)
    decreases b - a
  {
    if a < b {
      DirsRun(f, a, b - 1);
      assert Dirs(f, b) == Dirs(f, b - 1) + [];
    }
  }

  /** A '/' past the start adds the path up to it. */
  lemma {:induction false} DirsSlash(f: string, n: nat)
    requires 1 <= n < |f| && f[n] == '/'
    ensures Dirs(f, n + 1) == Dirs(f, n) + [f[..n]]
  {
  }

  lemma {:induction false} NotesStep(made: seq<string>, d: string, mkdir: string -> MkdirResult)
    ensures Notes(made + [d], mkdir) == Notes(made, mkdir) + NoteFor(d, mkdir)
  {
    assert (made + [d])[..|made|] == made;
  }

  // ---------------------------------------------------------------------
  // What the attempted directories are.

  /** Soundness: every attempted directory is a nonempty proper prefix of
      the path followed there by a '/'. */
  lemma {:induction false} DirsArePrefixes(f: string, n: nat)
    requires n <= |f|
    ensures forall d :: d in Dirs(f, n) ==>
              1 <= |d| < n && d == f[..|d|] && f[|d|] == '/'
  {
    if n > 0 {
      DirsArePrefixes(f, n - 1);
    }
  }

  /** Completeness: every '/' past the first position yields one attempt. */
  lemma {:induction false} DirsComplete(f: string, n: nat, i: nat)
    requires n <= |f| && 1 <= i < n && f[i] == '/'
    ensures f[..i] in Dirs(f, n)
  {
    if i < n - 1 {
      DirsComplete(f, n - 1, i);
    }
  }

  /** Parents come first: the attempted directories grow strictly in
      length. */
  lemma {:induction false} DirsIncreasing(f: string, n: nat)
    requires n <= |f|
    ensures forall j, k :: 0 <= j < k < |Dirs(f, n)| ==> |Dirs(f, n)[j]| < |Dirs(f, n)[k]|
  {
    if n > 0 {
      DirsIncreasing(f, n - 1);
      DirsArePrefixes(f, n - 1);
    }
  }

  /** The path itself, its final component, is never passed to `mkdir`. */
  lemma {:induction false} FileNeverCreated(f: string)
    ensures f !in Dirs(f, |f|)
  {
    DirsArePrefixes(f, |f|);
  }
}
