/**
  The lines git writes to a pre-push hook (`parse_pre_push_info`).
 */
module PushInput {
  import opened Wrappers
  import opened PushBase

  /** Cuts at the last space. */
  function CutLast(s: string): Option<(string, string)> {
    if s == "" then None
    else if s[|s| - 1] == ' ' then Some((s[..|s| - 1], ""))
    else
      match CutLast(s[..|s| - 1])
      case None => None
      case Some((left, right)) => Some((left, right + [s[|s| - 1]]))
  }

  /** A line is four fields parted at its last three spaces; a line with fewer spaces is skipped. */
  function ParseLine(line: string): Option<PushInfo> {
    match CutLast(line)
    case None => None
    case Some((rest, remoteSha)) =>
      match CutLast(rest)
      case None => None
      case Some((rest, remoteRef)) =>
        match CutLast(rest)
        case None => None
        case Some((localRef, localSha)) => Some(PushInfo(localRef, localSha, remoteRef, remoteSha))
  }

  /** The first line with its end, and what follows. */
  function CutLine(s: string): (r: (string, string))
    requires s != ""
    ensures |r.1| < |s|
  {
    if s[0] == '\n' then ("", s[1..])
    else if |s| == 1 then (s, "")
    else (
      var (line, rest) := CutLine(s[1..]);
      if line == "" && s[0] == '\r' && s[1] == '\n' then ("", rest) else ([s[0]] + line, rest))
  }

  /** Lines end in a newline or a return and a newline; the end of the last one may be missing. */
  function Lines(s: string): seq<string>
    decreases |s|
  {
    if s == "" then [] else [CutLine(s).0] + Lines(CutLine(s).1)
  }

  function ParseLines(lines: seq<string>): seq<PushInfo> {
    if lines == [] then []
    else
      (match ParseLine(lines[0]) case None => [] case Some(p) => [p]) + ParseLines(lines[1..])
  }

  /** `parse_pre_push_info`. */
  function ParsePushInfo(stdin: string): seq<PushInfo> {
    ParseLines(Lines(stdin))
  }

  // ---- git's own writing is read back ----

  predicate Free(s: string, c: char) {
    c !in s
  }

  /** What git can write: the first field may hold spaces, and no field a line end. */
  predicate Writable(p: PushInfo) {
    && LastFieldsFree(p)
    && Free(p.localRef, '\n') && Free(p.localSha, '\n') && Free(p.remoteRef, '\n') && Free(p.remoteSha, '\n')
    && Free(p.remoteSha, '\r')
  }

  function Line(p: PushInfo): string {
    p.localRef + " " + p.localSha + " " + p.remoteRef + " " + p.remoteSha
  }

  function Input(pushes: seq<PushInfo>): string {
    if pushes == [] then "" else Line(pushes[0]) + "\n" + Input(pushes[1..])
  }

  lemma {:induction false} CutLastAt(left: string, right: string)
    requires Free(right, ' ')
    ensures CutLast(left + " " + right) == Some((left, right))
  {
    var s := left + " " + right;
    if right == "" {
      assert s[..|s| - 1] == left;
    } else {
      assert s[..|s| - 1] == left + " " + right[..|right| - 1];
      CutLastAt(left, right[..|right| - 1]);
      assert right == right[..|right| - 1] + [right[|right| - 1]];
    }
  }

  lemma {:induction false} CutLastInverse(s: string)
    ensures CutLast(s).None? ==> Free(s, ' ')
    ensures CutLast(s).Some? ==> var (left, right) := CutLast(s).value; s == left + " " + right && Free(right, ' ')
  {
    if s != "" {
      assert s == s[..|s| - 1] + [s[|s| - 1]];
      CutLastInverse(s[..|s| - 1]);
    }
  }

  predicate LastFieldsFree(p: PushInfo) {
    Free(p.localSha, ' ') && Free(p.remoteRef, ' ') && Free(p.remoteSha, ' ')
  }

  lemma ParseWritten(p: PushInfo)
    requires LastFieldsFree(p)
    ensures ParseLine(Line(p)) == Some(p)
  {
    CutLastAt(p.localRef + " " + p.localSha + " " + p.remoteRef, p.remoteSha);
    CutLastAt(p.localRef + " " + p.localSha, p.remoteRef);
    CutLastAt(p.localRef, p.localSha);
  }

  /** A line is read as a push exactly when it is that push written out. */
  lemma ParseLineExact(line: string, p: PushInfo)
    ensures ParseLine(line) == Some(p) <==> line == Line(p) && LastFieldsFree(p)
  {
    if ParseLine(line) == Some(p) {
      CutLastInverse(line);
      var rest := CutLast(line).value.0;
      CutLastInverse(rest);
      CutLastInverse(CutLast(rest).value.0);
    } else if LastFieldsFree(p) {
      ParseWritten(p);
    }
  }

  /** A line ends at the first newline, without one return before it; without a newline it is the rest of the input. */
  lemma {:induction false} FirstLine(line: string, rest: string)
    requires Free(line, '\n')
    ensures CutLine(line + "\n" + rest) == (if line != "" && line[|line| - 1] == '\r' then line[..|line| - 1] else line, rest)
    ensures line != "" ==> CutLine(line) == (line, "")
  {
    if line == "" {
      assert (line + "\n" + rest)[1..] == rest;
    } else {
      var s := line + "\n" + rest;
      assert s[1..] == line[1..] + "\n" + rest;
      FirstLine(line[1..], rest);
      assert line == [line[0]] + line[1..];
      if |line| > 1 && line[|line| - 1] == '\r' {
        assert line[..|line| - 1] == [line[0]] + line[1..][..|line| - 2];
      }
    }
  }

  /** The pushes git writes are read back, all of them and in order. */
  lemma {:induction false} InputRoundTrip(pushes: seq<PushInfo>)
    requires forall i | 0 <= i < |pushes| :: Writable(pushes[i])
    ensures ParsePushInfo(Input(pushes)) == pushes
  {
    if pushes != [] {
      var line := Line(pushes[0]);
      FirstLine(line, Input(pushes[1..]));
      assert line[|line| - 1] != '\r';
      InputRoundTrip(pushes[1..]);
      ParseWritten(pushes[0]);
      assert Lines(Input(pushes)) == [line] + Lines(Input(pushes[1..]));
      assert ([line] + Lines(Input(pushes[1..])))[1..] == Lines(Input(pushes[1..]));
    }
  }
}
