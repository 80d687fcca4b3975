/** Slash normalisation of a path, against the reading of a path as a list of segments. */
module UrlPath {
  import opened Common

  /** One step of the fold that collapses runs of slashes. */
  function Push(acc: string, c: char): string {
    if c == '/' && acc != "" && acc[|acc| - 1] == '/' then acc else acc + [c]
  }

  function Collapse(acc: string, s: string): string
    decreases s
  {
    if s == "" then acc else Collapse(Push(acc, s[0]), s[1..])
  }

  function TrimSlashes(s: string): string {
    if s != "" && s[|s| - 1] == '/' then TrimSlashes(s[..|s| - 1]) else s
  }

  /** Collapse repeated slashes, strip trailing ones, keep at least one. */
  function NormPath(path: string): string {
    var trimmed := TrimSlashes(Collapse("", path));
    if trimmed == "" then "/" else trimmed
  }

  /** The non-empty pieces between slashes. */
  function Segments(path: string): seq<string> {
    if path == "" then []
    else if path[0] == '/' then Segments(path[1..])
    else
      var i := IndexOf(path, '/');
      [path[..i]] + Segments(path[i..])
  }

  /** The path that spells a list of segments. */
  function Spell(segments: seq<string>): string {
    "/" + Join(segments, '/')
  }

  predicate IsSegment(s: string) {
    s != "" && forall i :: 0 <= i < |s| ==> s[i] != '/'
  }

  lemma {:induction false} SegmentsAreSegments(path: string)
    ensures forall s :: s in Segments(path) ==> IsSegment(s)
  {
    if path != "" {
      if path[0] == '/' {
        SegmentsAreSegments(path[1..]);
      } else {
        SegmentsAreSegments(path[IndexOf(path, '/')..]);
      }
    }
  }

  /** A run without slashes is appended as it is. */
  lemma {:induction false} CollapseSegment(acc: string, segment: string, rest: string)
    requires forall i :: 0 <= i < |segment| ==> segment[i] != '/'
    ensures Collapse(acc, segment + rest) == Collapse(acc + segment, rest)
    decreases segment
  {
    if segment == "" {
      assert segment + rest == rest && acc + segment == acc;
    } else {
      assert (segment + rest)[1..] == segment[1..] + rest;
      CollapseSegment(acc + [segment[0]], segment[1..], rest);
      assert acc + [segment[0]] + segment[1..] == acc + segment;
    }
  }

  lemma TrimKeepsSegment(acc: string, segment: string)
    requires IsSegment(segment)
    ensures TrimSlashes(acc + segment) == acc + segment
    ensures TrimSlashes(acc + segment + "/") == acc + segment
  {
    var s := acc + segment;
    assert s[|s| - 1] == segment[|segment| - 1];
    assert (s + "/")[..|s|] == s;
  }

  /** One segment, and the slash behind it if there is one, are copied; the rest follows a slash again. */
  lemma CollapseOneSegment(acc: string, segment: string, rest: string)
    requires IsSegment(segment) && (rest == "" || rest[0] == '/')
    ensures Collapse(acc, segment + rest)
         == if rest == "" then acc + segment else Collapse(acc + segment + "/", rest[1..])
  {
    CollapseSegment(acc, segment, rest);
    if rest != "" {
      assert Push(acc + segment, '/') == acc + segment + "/";
    }
  }

  lemma FirstSegment(s: string)
    requires s != "" && s[0] != '/'
    ensures var i := IndexOf(s, '/');
      IsSegment(s[..i]) && s == s[..i] + s[i..] && Segments(s) == [s[..i]] + Segments(s[i..])
        && (s[i..] == "" || s[i..][0] == '/')
  {
  }

  /** What is still to be joined, behind what has been copied. */
  lemma JoinedBehind(acc: string, segment: string, rest: seq<string>)
    ensures acc + Join([segment] + rest, '/')
         == if rest == [] then acc + segment else acc + segment + "/" + Join(rest, '/')
  {
    JoinCons(segment, rest, '/');
    assert acc + (segment + (['/'] + Join(rest, '/'))) == acc + segment + "/" + Join(rest, '/');
  }

  /** After a slash, collapsing and trimming leaves the segments joined by single slashes. */
  lemma {:induction false} CollapseFromSlash(acc: string, s: string)
    requires acc != "" && acc[|acc| - 1] == '/'
    ensures TrimSlashes(Collapse(acc, s))
         == if Segments(s) == [] then TrimSlashes(acc) else acc + Join(Segments(s), '/')
    decreases |s|
  {
    hide TrimSlashes, Join;
    if s != "" && s[0] == '/' {
      CollapseFromSlash(acc, s[1..]);
    } else if s != "" {
      var i := IndexOf(s, '/');
      var segment, rest := s[..i], s[i..];
      FirstSegment(s);
      hide Collapse, Segments;
      CollapseOneSegment(acc, segment, rest);
      TrimKeepsSegment(acc, segment);
      JoinedBehind(acc, segment, Segments(rest));
      RestOfSegments(rest);
      if rest != "" {
        CollapseFromSlash(acc + segment + "/", rest[1..]);
      }
    }
  }

  lemma RestOfSegments(rest: string)
    requires rest == "" || rest[0] == '/'
    ensures Segments(rest) == if rest == "" then [] else Segments(rest[1..])
  {
  }

  /** Normalising a rooted path spells out its segments. */
  lemma NormPathSpellsSegments(path: string)
    requires path == "" || path[0] == '/'
    ensures NormPath(path) == Spell(Segments(path))
  {
    if path != "" {
      CollapseFromSlash("/", path[1..]);
      assert TrimSlashes("/") == "";
      assert Push("", '/') == "/";
      SegmentsAreSegments(path);
      if Segments(path) != [] {
        assert Segments(path)[0] in Segments(path);
      }
    }
  }

  lemma {:induction false} SegmentsOfSpelling(segments: seq<string>)
    requires forall s :: s in segments ==> IsSegment(s)
    ensures Segments(Spell(segments)) == segments
    ensures Segments(Join(segments, '/')) == segments
  {
    if segments != [] {
      var first, rest := segments[0], segments[1..];
      assert segments == [first] + rest;
      assert first in segments;
      JoinCons(first, rest, '/');
      var j := Join(segments, '/');
      assert forall i :: 0 <= i < |first| ==> j[i] == first[i];
      SegmentsOfSpelling(rest);
      if rest == [] {
        assert IndexOf(j, '/') == |j|;
        assert j[..|j|] == first && j[|j|..] == "";
      } else {
        assert j[|first|] == '/';
        assert IndexOf(j, '/') == |first|;
        assert j[..|first|] == first && j[|first|..] == Spell(rest);
      }
    }
    assert Spell(segments)[1..] == Join(segments, '/');
  }

  /** Normalising keeps the segments, settles in one step, and produces a rooted path. */
  lemma NormPathKeepsSegments(path: string)
    requires path == "" || path[0] == '/'
    ensures Segments(NormPath(path)) == Segments(path)
    ensures NormPath(NormPath(path)) == NormPath(path)
    ensures NormPath(path)[0] == '/'
  {
    NormPathSpellsSegments(path);
    SegmentsAreSegments(path);
    SegmentsOfSpelling(Segments(path));
    NormPathSpellsSegments(NormPath(path));
  }

  lemma {:induction false} CollapseAddsNothing(acc: string, s: string, c: char)
    requires c in Collapse(acc, s)
    ensures c in acc || c in s
    decreases s
  {
    if s != "" {
      CollapseAddsNothing(Push(acc, s[0]), s[1..], c);
    }
  }

  lemma {:induction false} TrimSlashesIsPrefix(s: string)
    ensures TrimSlashes(s) <= s
  {
    if s != "" && s[|s| - 1] == '/' {
      TrimSlashesIsPrefix(s[..|s| - 1]);
    }
  }

  lemma NormPathAddsNothing(path: string, c: char)
    requires c in NormPath(path)
    ensures c == '/' || c in path
  {
    TrimSlashesIsPrefix(Collapse("", path));
    if c != '/' {
      CollapseAddsNothing("", path, c);
    }
  }

  // ----- Drive letters -----

  /** A letter and a mark: with a bar or a colon, parsers of `file` URLs see a drive (section 4.4 of the WHATWG URL Standard). */
  predicate IsDrive(segment: string, mark: char) {
    |segment| == 2 && ('a' <= segment[0] <= 'z' || 'A' <= segment[0] <= 'Z') && segment[1] == mark
  }

  /** Any ASCII letter will do, in either case. */
  lemma DriveLetters(c: char, mark: char)
    ensures IsDrive([c, mark], mark) <==> c in "abcdefghijklmnopqrstuvwxyz" || c in "ABCDEFGHIJKLMNOPQRSTUVWXYZ"
  {
  }

  /** The path begins with such a segment. */
  predicate StartsWithDrive(path: string, mark: char) {
    |path| >= 3 && path[0] == '/' && IsDrive(path[1..3], mark) && (|path| == 3 || path[3] == '/')
  }

  /** The normalised path begins with a drive exactly when the first non-empty segment is one. */
  lemma DriveIsFirstSegment(path: string, mark: char)
    requires path == "" || path[0] == '/'
    requires mark != '/'
    ensures StartsWithDrive(NormPath(path), mark) <==> Segments(path) != [] && IsDrive(Segments(path)[0], mark)
  {
    NormPathSpellsSegments(path);
    SegmentsAreSegments(path);
    var segments := Segments(path);
    if segments != [] {
      var first, rest := segments[0], segments[1..];
      assert segments == [first] + rest && first in segments;
      JoinCons(first, rest, '/');
      var tail := if rest == [] then "" else ['/'] + Join(rest, '/');
      hide NormPath, Segments, Join;
      DriveOfSpelling(first, tail, mark);
    }
  }

  lemma DriveOfSpelling(first: string, tail: string, mark: char)
    requires mark != '/' && IsSegment(first) && (tail == "" || tail[0] == '/')
    ensures StartsWithDrive("/" + (first + tail), mark) <==> IsDrive(first, mark)
  {
    var path := "/" + (first + tail);
    if |first| == 2 {
      assert path[1..3] == first;
    } else if |first| == 1 && tail != "" {
      assert path[2] == '/';
    } else if |first| > 2 {
      assert path[3] == first[2];
    }
  }
}
