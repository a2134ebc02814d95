/** Safe relative paths: `_safe_rel` over a model of `PurePosixPath`. */
module RelativePath {
  /** The pieces of a string between slashes; always at least one. */
  function Split(s: string): (pieces: seq<string>)
    ensures |pieces| >= 1
  {
    if s == "" then [""]
    else if s[0] == '/' then [""] + Split(s[1..])
    else
      var rest := Split(s[1..]);
      [[s[0]] + rest[0]] + rest[1..]
  }

  function Join(pieces: seq<string>): string {
    if pieces == [] then "" else if |pieces| == 1 then pieces[0] else pieces[0] + "/" + Join(pieces[1..])
  }

  /** `PurePosixPath.parts` of a relative path: empty and `.` pieces are dropped. */
  function Parts(s: string): seq<string> {
    Filter(Split(s))
  }

  function Filter(pieces: seq<string>): seq<string> {
    if pieces == [] then []
    else if pieces[0] == "" || pieces[0] == "." then Filter(pieces[1..])
    else [pieces[0]] + Filter(pieces[1..])
  }

  /** `PurePosixPath.as_posix` of a relative path; the empty path prints as a dot. */
  function AsPosix(s: string): string {
    if Parts(s) == [] then "." else Join(Parts(s))
  }

  predicate Safe(s: string) {
    && s != "" && '\\' !in s && ':' !in s
    && s[0] != '/'
    && AsPosix(s) == s
    && ".." !in Parts(s)
  }

  /** A piece that names a child: not empty, not the directory itself, not its parent. */
  predicate Proper(piece: string) {
    piece != "" && piece != "." && piece != ".."
  }

  // ----------------------------------------------------------------- theorems

  lemma {:induction false} SplitHasNoSlash(s: string)
    ensures forall p | p in Split(s) :: '/' !in p
  {
    if s != "" {
      SplitHasNoSlash(s[1..]);
      var rest := Split(s[1..]);
      if s[0] != '/' {
        assert rest[0] in rest;
        assert forall p | p in rest[1..] :: p in rest;
      }
    }
  }

  lemma {:induction false} JoinSplit(s: string)
    ensures Join(Split(s)) == s
  {
    if s != "" {
      JoinSplit(s[1..]);
      var rest := Split(s[1..]);
      if s[0] == '/' {
        assert ([""] + rest)[1..] == rest;
        assert s == "/" + s[1..];
      } else {
        var pieces := [[s[0]] + rest[0]] + rest[1..];
        assert pieces[1..] == rest[1..];
        assert s == [s[0]] + s[1..];
      }
    }
  }

  lemma {:induction false} SplitPrefix(p: string, tail: string)
    requires '/' !in p
    ensures Split(p + tail) == [p + Split(tail)[0]] + Split(tail)[1..]
  {
    if p == "" {
      assert p + tail == tail && p + Split(tail)[0] == Split(tail)[0];
      assert [Split(tail)[0]] + Split(tail)[1..] == Split(tail);
    } else {
      SplitPrefix(p[1..], tail);
      assert (p + tail)[1..] == p[1..] + tail;
      assert [p[0]] + (p[1..] + Split(tail)[0]) == p + Split(tail)[0];
    }
  }

  lemma SplitCons(p: string, rest: string)
    requires '/' !in p
    ensures Split(p + "/" + rest) == [p] + Split(rest)
  {
    assert p + "/" + rest == p + ("/" + rest);
    SplitPrefix(p, "/" + rest);
    assert ("/" + rest)[1..] == rest;
    assert Split("/" + rest) == [""] + Split(rest);
    assert p + "" == p;
  }

  lemma SplitWhole(p: string)
    requires '/' !in p
    ensures Split(p) == [p]
  {
    SplitPrefix(p, "");
    assert p + "" == p;
  }

  lemma {:induction false} SplitJoin(pieces: seq<string>)
    requires pieces != [] && forall p | p in pieces :: '/' !in p
    ensures Split(Join(pieces)) == pieces
  {
    var p := pieces[0];
    assert p in pieces && pieces == [p] + pieces[1..];
    if |pieces| == 1 {
      SplitWhole(p);
    } else {
      assert forall q | q in pieces[1..] :: q in pieces;
      SplitJoin(pieces[1..]);
      SplitCons(p, Join(pieces[1..]));
    }
  }

  lemma {:induction false} FilterKeepsProper(pieces: seq<string>)
    ensures forall p | p in Filter(pieces) :: p in pieces && p != "" && p != "."
    ensures (forall p | p in pieces :: Proper(p)) ==> Filter(pieces) == pieces
  {
    if pieces != [] {
      FilterKeepsProper(pieces[1..]);
      assert pieces == [pieces[0]] + pieces[1..];
      assert pieces[0] in pieces && forall p | p in pieces[1..] :: p in pieces;
    }
  }

  /**
   A path is accepted exactly when it is a single dot or every piece between its slashes
   names a child. The dot is accepted because its list of parts is empty.
   */
  lemma SafeExactly(s: string)
    ensures Safe(s) <==> '\\' !in s && ':' !in s && (s == "." || forall p | p in Split(s) :: Proper(p))
  {
    SplitHasNoSlash(s);
    JoinSplit(s);
    FilterKeepsProper(Split(s));
    if Safe(s) && s != "." {
      forall p | p in Parts(s)
        ensures '/' !in p
      {
      }
      SplitJoin(Parts(s));
      assert Split(s) == Parts(s);
    }
    SplitWhole(".");
    if s != "." && forall p | p in Split(s) :: Proper(p) {
      assert Split(s)[0] in Split(s);
      assert s != "" && s[0] != '/';
      assert Parts(s) == Split(s);
    }
  }

  /** Below a one-piece directory, a safe path is that directory followed by a path that is itself safe. */
  lemma SafeBelow(directory: string, rest: string)
    requires directory != "" && '/' !in directory
    requires Safe(directory + "/" + rest)
    ensures Safe(rest) && rest != "." && Proper(directory)
  {
    var s := directory + "/" + rest;
    SplitCons(directory, rest);
    SafeExactly(s);
    assert s[|directory|] == '/' && s != ".";
    assert Split(s)[0] in Split(s) && forall p | p in Split(rest) :: p in Split(s);
    SplitWhole(".");
    assert forall c | c in rest :: c in s;
    SafeExactly(rest);
  }
}
