/**
 * The two pieces of text handling the processor applies to a file name:
 * get_file_type (the extension, lower-cased) and the client name that
 * re.sub(r"\..*$", "", filename) leaves behind.
 */
module FileNames {
  import opened Wrappers

  /** Position of the last '.' in s, if any. */
  function LastDot(s: string): (r: Option<nat>)
    ensures r.Some? ==> r.value < |s| && s[r.value] == '.'
    ensures r.Some? ==> forall j :: r.value < j < |s| ==> s[j] != '.'
    ensures r.None? ==> forall j :: 0 <= j < |s| ==> s[j] != '.'
  {
    if s == [] then None
    else if s[|s| - 1] == '.' then Some(|s| - 1)
    else LastDot(s[..|s| - 1])
  }

  /** Position of the first '.' at or after from, if any. */
  function FirstDotFrom(s: string, from: nat): (r: Option<nat>)
    requires from <= |s|
    ensures r.Some? ==> from <= r.value < |s| && s[r.value] == '.'
    ensures r.Some? ==> forall j :: from <= j < r.value ==> s[j] != '.'
    ensures r.None? ==> forall j :: from <= j < |s| ==> s[j] != '.'
    decreases |s| - from
  {
    if from == |s| then None
    else if s[from] == '.' then Some(from)
    else FirstDotFrom(s, from + 1)
  }

  /** Where the last line of s starts: just after its last '\n', or 0. */
  function LastLineStart(s: string): (r: nat)
    ensures r <= |s|
    ensures r > 0 ==> s[r - 1] == '\n'
    ensures forall j :: r <= j < |s| ==> s[j] != '\n'
  {
    if s == [] then 0
    else if s[|s| - 1] == '\n' then |s|
    else LastLineStart(s[..|s| - 1])
  }

  function LowerChar(c: char): (r: char)
    ensures r != '.' <==> c != '.'
  {
    if 'A' <= c <= 'Z' then (c as int - 'A' as int + 'a' as int) as char else c
  }

  /**
   * str.lower() on the ASCII letters: no capital is left, each capital becomes the
   * small letter 32 code points above it, and every other character is kept.
   */
  function Lower(s: string): (r: string)
    ensures |r| == |s|
    ensures forall i :: 0 <= i < |r| ==> !('A' <= r[i] <= 'Z')
    ensures forall i :: 0 <= i < |s| && !('A' <= s[i] <= 'Z') ==> r[i] == s[i]
    ensures forall i :: 0 <= i < |s| && 'A' <= s[i] <= 'Z' ==>
      'a' <= r[i] <= 'z' && r[i] as int == s[i] as int + 32
  {
    seq(|s|, i requires 0 <= i < |s| => LowerChar(s[i]))
  }

  /** Lower-casing twice changes nothing more. */
  lemma LowerIdempotent(s: string)
    ensures Lower(Lower(s)) == Lower(s)
  {
  }

  /**
   * get_file_type(filename): re.search(r'\.([^.]+)$') matches only at the last dot,
   * and only when at least one character follows it.
   */
  function FileType(filename: string): (r: string)
    ensures '.' !in r
  {
    match LastDot(filename)
    case Some(i) =>
      if i + 1 < |filename| then
        var ext := filename[i + 1..];
        assert forall j :: 0 <= j < |ext| ==> ext[j] == filename[i + 1 + j];
        Lower(ext)
      else "unknown"
    case None => "unknown"
  }

  /** A name ending in '.' and one or more non-dot characters yields those characters, lower-cased. */
  lemma FileTypeOfExtension(stem: string, ext: string)
    requires ext != [] && '.' !in ext
    ensures FileType(stem + "." + ext) == Lower(ext)
  {
    var s := stem + "." + ext;
    assert s[|stem|] == '.';
    assert forall j :: |stem| < j < |s| ==> s[j] == ext[j - |stem| - 1];
    assert s[|stem| + 1..] == ext;
  }

  /** With no dot, or with the dot as last character, the type is "unknown". */
  lemma FileTypeWithoutExtension(filename: string)
    requires '.' !in filename || filename[|filename| - 1] == '.'
    ensures FileType(filename) == "unknown"
  {
    if '.' in filename {
      assert filename[|filename| - 1] == '.';
    } else {
      assert forall j :: 0 <= j < |filename| ==> filename[j] != '.';
    }
  }

  /** 1 when s ends in '\n', else 0. */
  function FinalNewline(s: string): (r: nat)
    ensures r <= |s|
    ensures r == 1 <==> s != [] && s[|s| - 1] == '\n'
  {
    if s != [] && s[|s| - 1] == '\n' then 1 else 0
  }

  /**
   * re.sub(r"\..*$", "", s). '.*' stops at a newline and '$' matches at the end or
   * just before a final '\n', so the match is the first dot of the last line
   * (not counting a final '\n') up to that line's end; a final '\n' survives.
   * After that match nothing dotted is left, so at most one replacement happens.
   */
  function StripExtension(s: string): (r: string)
    ensures |r| <= |s|
    ensures r != s ==>
      var n, i := |s| - FinalNewline(s), |r| - FinalNewline(s);
      0 <= i < n && s[i] == '.' && r == s[..i] + s[n..]
  {
    var body := if s != [] && s[|s| - 1] == '\n' then s[..|s| - 1] else s;
    match FirstDotFrom(body, LastLineStart(body))
    case Some(i) => s[..i] + s[|body|..]
    case None => s
  }

  /** What is removed runs from a dot to the end of the last line and holds no newline. */
  lemma StripExtensionCut(s: string)
    ensures var n, i := |s| - FinalNewline(s), |StripExtension(s)| - FinalNewline(s);
      StripExtension(s) != s ==> forall j :: i <= j < n ==> s[j] != '\n'
  {
  }

  /**
   * For a name without newlines, everything from the first dot on is removed: the
   * result is a prefix of the name, holds no dot, and is followed in the name by a
   * dot unless it is the whole name.
   */
  lemma StripExtensionSingleLine(s: string)
    requires '\n' !in s
    ensures StripExtension(s) <= s
    ensures '.' !in StripExtension(s)
    ensures StripExtension(s) == s || s[|StripExtension(s)|] == '.'
    ensures '.' !in s ==> StripExtension(s) == s
  {
    assert s != [] ==> s[|s| - 1] != '\n';
    assert LastLineStart(s) == 0;
    match FirstDotFrom(s, 0)
    case Some(i) =>
      assert s[|s|..] == [];
      assert StripExtension(s) == s[..i];
      assert forall j :: 0 <= j < i ==> s[..i][j] == s[j];
    case None =>
      assert forall j :: 0 <= j < |s| ==> s[j] != '.';
  }

  /** A final newline is kept, and the line before it is stripped as if it stood alone. */
  lemma StripExtensionFinalNewline(u: string)
    requires u == [] || u[|u| - 1] != '\n'
    ensures StripExtension(u + "\n") == StripExtension(u) + "\n"
  {
    var s := u + "\n";
    assert s[..|s| - 1] == u;
    assert s[|u|..] == "\n";
    assert u[|u|..] == [];
    match FirstDotFrom(u, LastLineStart(u))
    case Some(i) =>
      assert s[..i] == u[..i];
    case None =>
  }

  /** Only the last line is touched: the lines before it come through unchanged. */
  lemma StripExtensionLastLine(p: string, q: string)
    requires q != [] && '\n' !in q
    ensures StripExtension(p + "\n" + q) == p + "\n" + StripExtension(q)
  {
    var s := p + "\n" + q;
    var n := |p| + 1;
    assert s[|s| - 1] == q[|q| - 1];
    assert LastLineStart(s) == n by {
      LastLineStartAfterNewline(p + "\n", q);
    }
    assert LastLineStart(q) == 0;
    FirstDotShift(p + "\n", q);
    match FirstDotFrom(q, 0)
    case Some(i) =>
      StripExtensionAt(q, i);
      StripExtensionAt(s, n + i);
      assert s[..n + i] == p + "\n" + q[..i];
    case None =>
      StripExtensionNone(q);
      StripExtensionNone(s);
  }

  /** Without a final newline and with no dot in the last line, the name is kept. */
  lemma StripExtensionNone(s: string)
    requires s != [] && s[|s| - 1] != '\n'
    requires FirstDotFrom(s, LastLineStart(s)).None?
    ensures StripExtension(s) == s
  {
  }

  /** Without a final newline, the name is cut at the dot the search finds. */
  lemma StripExtensionAt(s: string, i: nat)
    requires s != [] && s[|s| - 1] != '\n'
    requires FirstDotFrom(s, LastLineStart(s)) == Some(i)
    ensures StripExtension(s) == s[..i]
  {
    assert s[|s|..] == [];
  }

  lemma {:induction false} LastLineStartAfterNewline(p: string, q: string)
    requires p != [] && p[|p| - 1] == '\n'
    requires '\n' !in q
    ensures LastLineStart(p + q) == |p|
    decreases |q|
  {
    var s := p + q;
    if q == [] {
      assert s == p;
    } else {
      assert s[|s| - 1] == q[|q| - 1];
      assert s[..|s| - 1] == p + q[..|q| - 1];
      LastLineStartAfterNewline(p, q[..|q| - 1]);
    }
  }

  lemma {:induction false} FirstDotShift(p: string, q: string)
    ensures FirstDotFrom(p + q, |p|) == match FirstDotFrom(q, 0)
      case Some(i) => Some(|p| + i)
      case None => None
  {
    var s := p + q;
    match FirstDotFrom(q, 0)
    case Some(i) =>
      assert s[|p| + i] == q[i];
      assert forall j :: |p| <= j < |p| + i ==> s[j] == q[j - |p|];
    case None =>
      assert forall j :: |p| <= j < |s| ==> s[j] == q[j - |p|];
  }
}
