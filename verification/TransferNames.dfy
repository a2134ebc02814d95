/** The names a download may carry: `safe_single_component` over a model of Unix `Path::components`, and destination names. */
module TransferNames {
  import opened Common
  import RelativePath

  const MAX_COMPONENT_BYTES: nat := 512
  const MAX_BROWSER_DOWNLOAD_NAME_BYTES: nat := 255

  datatype Component = RootDir | CurDir | ParentDir | Normal(name: string)

  /** The components of pieces between slashes: empty pieces and dots vanish. */
  function Walk(pieces: seq<string>): seq<Component> {
    if pieces == [] then []
    else if Skipped(pieces[0]) then Walk(pieces[1..])
    else [if pieces[0] == ".." then ParentDir else Normal(pieces[0])] + Walk(pieces[1..])
  }

  predicate Skipped(piece: string) {
    piece == "" || piece == "."
  }

  /** `Path::components`: only a dot at the very start of a relative path is reported. */
  function Components(s: string): seq<Component> {
    if s == "" then [] else Lead(s[0], RelativePath.Split(s)[0]) + Walk(RelativePath.Split(s))
  }

  function Lead(c: char, first: string): seq<Component> {
    if c == '/' then [RootDir] else if first == "." then [CurDir] else []
  }

  predicate Bounded(s: string, max: nat) {
    s != "" && ByteLength(s) <= max && forall c | c in s :: !IsControl(c)
  }

  predicate SafeSingleComponent(s: string) {
    Bounded(s, MAX_COMPONENT_BYTES) && |Components(s)| == 1 && Components(s)[0].Normal?
  }

  /** `Path::join`. */
  function Joined(directory: string, s: string): string {
    if s != "" && s[0] == '/' then s
    else if directory == "" || directory[|directory| - 1] == '/' then directory + s
    else directory + "/" + s
  }

  // -------------------------------------------------------- destination names

  function AsciiUpper(c: char): char {
    if 'a' <= c <= 'z' then (c as int - 32) as char else c
  }

  /** What comes before the first dot, in ASCII upper case. */
  function Stem(s: string): string {
    if s == "" || s[0] == '.' then "" else [AsciiUpper(s[0])] + Stem(s[1..])
  }

  predicate Reserved(stem: string) {
    || stem in {"CON", "PRN", "AUX", "NUL"}
    || (|stem| == 4 && (stem[..3] == "COM" || stem[..3] == "LPT") && '1' <= stem[3] <= '9')
  }

  predicate Forbidden(c: char) {
    c in {'/', '\\', '<', '>', ':', '\"', '|', '?', '*'}
  }

  /** `validate_transfer_basename`. */
  predicate ValidDestinationName(s: string) {
    && Bounded(s, MAX_BROWSER_DOWNLOAD_NAME_BYTES)
    && !IsWhitespace(s[0]) && !IsWhitespace(s[|s| - 1])
    && s != "." && s != ".."
    && (forall c | c in s :: !Forbidden(c))
    && s[|s| - 1] != '.'
    && !Reserved(Stem(s))
  }

  // ----------------------------------------------------------------- theorems

  /** A numbered device is its three letters and one digit from one to nine. */
  lemma NumberedExactly(stem: string, device: string)
    requires |device| == 3
    ensures |stem| == 4 && stem[..3] == device && '1' <= stem[3] <= '9' <==>
            exists d | d in {'1', '2', '3', '4', '5', '6', '7', '8', '9'} :: stem == device + [d]
  {
    if |stem| == 4 && stem[..3] == device && '1' <= stem[3] <= '9' {
      assert stem == device + [stem[3]];
    }
  }

  /** The reserved stems are the device names, the numbered ones from one to nine. */
  lemma ReservedExactly(stem: string)
    ensures Reserved(stem) <==>
      || stem == "CON" || stem == "PRN" || stem == "AUX" || stem == "NUL"
      || exists d | d in {'1', '2', '3', '4', '5', '6', '7', '8', '9'} :: stem == "COM" + [d] || stem == "LPT" + [d]
  {
    NumberedExactly(stem, "COM");
    NumberedExactly(stem, "LPT");
  }

  /** A stem is what stands before the first dot, every ASCII letter in upper case. */
  lemma {:induction false} StemExactly(s: string)
    ensures |Stem(s)| <= |s| && '.' !in s[..|Stem(s)|] && (|Stem(s)| < |s| ==> s[|Stem(s)|] == '.')
    ensures forall i | 0 <= i < |Stem(s)| :: Stem(s)[i] == AsciiUpper(s[i])
  {
    if s != "" && s[0] != '.' {
      StemExactly(s[1..]);
      var n := |Stem(s[1..])|;
      assert s[..n + 1] == [s[0]] + s[1..][..n];
    }
  }

  /** A device name: four fixed ones and two families numbered from one to nine. */
  predicate Device(d: string) {
    || d == "CON" || d == "PRN" || d == "AUX" || d == "NUL"
    || exists n | n in {'1', '2', '3', '4', '5', '6', '7', '8', '9'} :: d == "COM" + [n] || d == "LPT" + [n]
  }

  /** `s` is the device name `d`, in any mixture of letter cases, alone or before a dot. */
  predicate NamesDevice(s: string, d: string) {
    && |d| <= |s| && (|d| < |s| ==> s[|d|] == '.')
    && forall i | 0 <= i < |d| :: s[i] == d[i] || ('A' <= d[i] <= 'Z' && s[i] as int == d[i] as int + 32)
  }

  lemma DeviceLetters(d: string, i: nat)
    requires Device(d) && i < |d|
    ensures 'A' <= d[i] <= 'Z' || '1' <= d[i] <= '9'
  {
  }

  lemma NamedDeviceIsTheStem(s: string, d: string)
    requires Device(d) && NamesDevice(s, d)
    ensures Stem(s) == d
  {
    StemExactly(s);
    forall i | 0 <= i < |d|
      ensures s[i] != '.' && AsciiUpper(s[i]) == d[i]
    {
      DeviceLetters(d, i);
    }
    assert |Stem(s)| <= |d|;
  }

  /** A name is reserved exactly when it is a device name, in any letter case, alone or before a dot. */
  lemma ReservedNamesExactly(s: string)
    ensures Reserved(Stem(s)) <==> exists d :: Device(d) && NamesDevice(s, d)
  {
    ReservedExactly(Stem(s));
    StemExactly(s);
    if Reserved(Stem(s)) {
      assert Device(Stem(s)) && NamesDevice(s, Stem(s));
    }
    if d :| Device(d) && NamesDevice(s, d) {
      NamedDeviceIsTheStem(s, d);
    }
  }

  /** `str::trim`. */
  function Trim(s: string): string {
    TrimEnd(TrimStart(s))
  }

  function TrimStart(s: string): string {
    if s != "" && IsWhitespace(s[0]) then TrimStart(s[1..]) else s
  }

  function TrimEnd(s: string): string {
    if s != "" && IsWhitespace(s[|s| - 1]) then TrimEnd(s[..|s| - 1]) else s
  }

  lemma {:induction false} TrimStartShrinks(s: string)
    ensures |TrimStart(s)| <= |s|
  {
    if s != "" && IsWhitespace(s[0]) {
      TrimStartShrinks(s[1..]);
    }
  }

  lemma {:induction false} TrimEndShrinks(s: string)
    ensures |TrimEnd(s)| <= |s|
  {
    if s != "" && IsWhitespace(s[|s| - 1]) {
      TrimEndShrinks(s[..|s| - 1]);
    }
  }

  lemma TrimmedExactly(s: string)
    ensures Trim(s) == s <==> s == "" || (!IsWhitespace(s[0]) && !IsWhitespace(s[|s| - 1]))
  {
    TrimEndShrinks(TrimStart(s));
    if s != "" && IsWhitespace(s[0]) {
      TrimStartShrinks(s[1..]);
    } else if s != "" && IsWhitespace(s[|s| - 1]) {
      TrimEndShrinks(s[..|s| - 1]);
    }
  }

  const FORBIDDEN: string := "/\\<>:\"|?*"

  lemma ForbiddenExactly(c: char)
    ensures Forbidden(c) <==> c in FORBIDDEN
  {
    assert FORBIDDEN == ['/', '\\', '<', '>', ':', '\"', '|', '?', '*'];
  }

  /** Between one and 255 bytes, without control or forbidden characters. */
  predicate Plain(s: string) {
    0 < ByteLength(s) <= 255 && forall i | 0 <= i < |s| :: !IsControl(s[i]) && s[i] !in FORBIDDEN
  }

  lemma PlainExactly(s: string)
    ensures Plain(s) <==> Bounded(s, MAX_BROWSER_DOWNLOAD_NAME_BYTES) && forall c | c in s :: !Forbidden(c)
  {
    forall c | c in s
      ensures Forbidden(c) <==> c in FORBIDDEN
    {
      ForbiddenExactly(c);
    }
    if s != "" {
      assert ByteLength(s) >= Utf8Width(s[0]);
    }
  }

  /** The accepted destination names, exactly: plain, trimmed, not ending in a dot, and naming no device. */
  lemma DestinationNameExactly(s: string)
    ensures ValidDestinationName(s) <==>
      Plain(s) && Trim(s) == s && s[|s| - 1] != '.' && forall d | Device(d) :: !NamesDevice(s, d)
  {
    PlainExactly(s);
    TrimmedExactly(s);
    ReservedNamesExactly(s);
  }

  lemma {:induction false} WalkConcat(a: seq<string>, b: seq<string>)
    ensures Walk(a + b) == Walk(a) + Walk(b)
  {
    if a == [] {
      assert a + b == b;
    } else {
      assert (a + b)[1..] == a[1..] + b;
      WalkConcat(a[1..], b);
    }
  }

  lemma {:induction false} WalkIsEmptyExactly(pieces: seq<string>)
    ensures Walk(pieces) == [] <==> forall p | p in pieces :: Skipped(p)
  {
    if pieces != [] {
      WalkIsEmptyExactly(pieces[1..]);
      assert pieces == [pieces[0]] + pieces[1..];
    }
  }

  /**
   The accepted ids, exactly: a first piece that names a child, followed by nothing but
   slashes and lone dots. So `f`, `f/` and `f/.` pass, and all three mean the child `f`.
   */
  lemma SafeComponentExactly(s: string)
    ensures SafeSingleComponent(s) <==>
      (&& Bounded(s, MAX_COMPONENT_BYTES)
       && RelativePath.Proper(RelativePath.Split(s)[0])
       && forall p | p in RelativePath.Split(s)[1..] :: Skipped(p))
    ensures SafeSingleComponent(s) ==> Components(s) == [Normal(RelativePath.Split(s)[0])]
  {
    if s != "" {
      var pieces := RelativePath.Split(s);
      assert pieces == [pieces[0]] + pieces[1..];
      WalkIsEmptyExactly(pieces[1..]);
      WalkIsEmptyExactly(pieces);
      assert s[0] == '/' <==> pieces[0] == "";
    }
  }

  lemma SplitCons(c: char, s: string)
    ensures var rest := RelativePath.Split(s);
      RelativePath.Split([c] + s) == if c == '/' then [""] + rest else [[c] + rest[0]] + rest[1..]
  {
    assert ([c] + s)[0] == c && ([c] + s)[1..] == s;
  }

  lemma PrependAppend(c: char, x: seq<string>, y: seq<string>)
    requires |x| >= 1
    ensures [[c] + (x + y)[0]] + (x + y)[1..] == ([[c] + x[0]] + x[1..]) + y
    ensures [""] + (x + y) == ([""] + x) + y
  {
    assert (x + y)[1..] == x[1..] + y;
  }

  lemma SplitAppendStep(c: char, rest: string, tail: string, y: seq<string>)
    requires RelativePath.Split(rest + tail) == RelativePath.Split(rest) + y
    ensures RelativePath.Split([c] + (rest + tail)) == RelativePath.Split([c] + rest) + y
  {
    SplitCons(c, rest);
    SplitCons(c, rest + tail);
    PrependAppend(c, RelativePath.Split(rest), y);
  }

  lemma {:induction false} SplitAppend(a: string, b: string)
    ensures RelativePath.Split(a + ("/" + b)) == RelativePath.Split(a) + RelativePath.Split(b)
  {
    var tail := "/" + b;
    if a == "" {
      assert a + tail == ['/'] + b;
      SplitCons('/', b);
    } else {
      var c, rest := a[0], a[1..];
      SplitAppend(rest, b);
      SplitAppendStep(c, rest, tail, RelativePath.Split(b));
      assert a == [c] + rest;
      assert a + tail == [c] + (rest + tail);
    }
  }

  lemma Reassociate(x: seq<Component>, y: seq<Component>, z: seq<Component>)
    ensures x + (y + z) == (x + y) + z
  {
  }

  /** Whether a path has a root or starts with a dot is settled before its first slash. */
  lemma AppendWalks(a: string, b: string)
    requires a != ""
    ensures Components(a + ("/" + b)) == Components(a) + Walk(RelativePath.Split(b))
  {
    var whole := a + ("/" + b);
    var x, y := RelativePath.Split(a), RelativePath.Split(b);
    SplitAppend(a, b);
    WalkConcat(x, y);
    assert whole[0] == a[0] && RelativePath.Split(whole)[0] == x[0];
    Reassociate(Lead(a[0], x[0]), Walk(x), Walk(y));
  }

  lemma RootWalks(b: string)
    ensures Components("/" + b) == [RootDir] + Walk(RelativePath.Split(b))
  {
    SplitCons('/', b);
    assert "/" + b == ['/'] + b;
    assert ([""] + RelativePath.Split(b))[1..] == RelativePath.Split(b);
  }

  lemma RootAlone()
    ensures Components("/") == [RootDir]
  {
    RootWalks("");
    assert "/" + "" == "/" && Walk([""]) == [];
  }

  lemma TrailingSlashIsIgnored(a: string)
    requires a != ""
    ensures Components(a + "/") == Components(a)
  {
    AppendWalks(a, "");
    assert "/" + "" == "/" && Walk([""]) == [];
  }

  /** Joining a relative path walks on from the directory's own components. */
  lemma JoinedWalksOn(directory: string, s: string)
    requires directory != "" && s != "" && s[0] != '/'
    ensures Components(Joined(directory, s)) == Components(directory) + Walk(RelativePath.Split(s))
  {
    var n := |directory| - 1;
    if directory[n] != '/' {
      assert Joined(directory, s) == directory + ("/" + s);
      AppendWalks(directory, s);
    } else if n == 0 {
      assert directory == "/" && Joined(directory, s) == "/" + s;
      RootWalks(s);
      RootAlone();
    } else {
      var a := directory[..n];
      assert directory == a + "/" && Joined(directory, s) == a + ("/" + s);
      AppendWalks(a, s);
      TrailingSlashIsIgnored(a);
    }
  }

  /** A safe id joined to any directory is a direct child of it. */
  lemma SafeIdIsADirectChild(directory: string, id: string)
    requires directory != "" && SafeSingleComponent(id)
    ensures Components(Joined(directory, id)) == Components(directory) + [Normal(RelativePath.Split(id)[0])]
  {
    SafeComponentExactly(id);
    assert id[0] != '/';
    JoinedWalksOn(directory, id);
  }

  /** A child's name stays acceptable, and means the same child, with a slash or a slash and a dot behind it. */
  lemma TrailingSlashAndDotAreSafe(name: string)
    requires RelativePath.Proper(name) && '/' !in name
    requires Bounded(name + "/", MAX_COMPONENT_BYTES) && Bounded(name + "/.", MAX_COMPONENT_BYTES)
    ensures SafeSingleComponent(name + "/") && Components(name + "/") == [Normal(name)]
    ensures SafeSingleComponent(name + "/.") && Components(name + "/.") == [Normal(name)]
  {
    RelativePath.SplitWhole(name);
    RelativePath.SplitWhole(".");
    SplitAppend(name, "");
    SplitAppend(name, ".");
    assert "/" + "" == "/" && "/" + "." == "/.";
    SafeComponentExactly(name + "/");
    SafeComponentExactly(name + "/.");
  }

  /** A valid destination name is one component, itself, and so a child of whatever directory it is put in. */
  lemma ValidNameIsOneComponent(s: string)
    requires ValidDestinationName(s)
    ensures Components(s) == [Normal(s)] && SafeSingleComponent(s)
  {
    assert '/' !in s by {
      assert Forbidden('/');
    }
    RelativePath.SplitWhole(s);
    SafeComponentExactly(s);
  }
}
