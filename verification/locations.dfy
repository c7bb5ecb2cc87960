/** The download-location helpers of `Utils`: completing a directory with
    its trailing separator and checking a directory path against the two
    regular expressions the options page uses. */
module Locations {
  import opened Strings

  /** The separator a location uses: `/` when it starts with `/` (a
      Unix-like path), `\` otherwise (a Windows path). */
  function Separator(location: string): char
  {
    if StartsWith(location, '/') then '/' else '\\'
  }

  /** `Utils.completeLocation(location)`: an empty location is returned as
      it is; otherwise the separator is appended unless already last. */
  function CompleteLocation(location: string): (r: string)
    ensures location == "" ==> r == ""
    ensures location != "" ==>
      && |location| <= |r| <= |location| + 1
      && r[..|location|] == location
      && EndsWith(r, Separator(location))
      && (EndsWith(location, Separator(location)) ==> r == location)
  {
    if location == "" then location
    else if StartsWith(location, '/') then
      if !EndsWith(location, '/') then location + "/" else location
    else
      if !EndsWith(location, '\\') then location + "\\" else location
  }

  /** Completing twice is completing once. */
  lemma CompleteLocationIdempotent(location: string)
    ensures CompleteLocation(CompleteLocation(location)) == CompleteLocation(location)
  {
    if location != "" {
      var r := CompleteLocation(location);
      assert r[0] == location[0];
      assert Separator(r) == Separator(location);
    }
  }

  /** JavaScript's `\s`: tab, line feed, vertical tab, form feed, carriage
      return, space, U+00A0, U+1680, U+2000 to U+200A, U+2028, U+2029,
      U+202F, U+205F, U+3000 and U+FEFF. */
  predicate IsJsWhitespace(c: char)
  {
    || c in {'\t', '\n', '\U{000B}', '\U{000C}', '\r', ' ', '\U{00A0}', '\U{1680}', '\U{2028}', '\U{2029}', '\U{202F}', '\U{205F}', '\U{3000}', '\U{FEFF}'}
    || ('\U{2000}' <= c <= '\U{200A}')
  }

  predicate IsAsciiLetter(c: char)
  {
    ('A' <= c <= 'Z') || ('a' <= c <= 'z')
  }

  /** The bracket class shared by both path expressions,
      `[-\u4e00-\u9fa5\w\s.()~!@#$%^&()\[\]{}+=]`: ASCII letters, digits and
      `_`, white space, the CJK ideographs U+4E00 to U+9FA5, and the
      listed punctuation. */
  predicate InPathClass(c: char)
  {
    || IsAsciiLetter(c)
    || ('0' <= c <= '9')
    || c == '_'
    || IsJsWhitespace(c)
    || ('\U{4E00}' <= c <= '\U{9FA5}')
    || c in {'-', '.', '(', ')', '~', '!', '@', '#', '$', '%', '^', '&', '[', ']', '{', '}', '+', '='}
  }

  /** None of the path and list punctuation is in the class. */
  lemma PathClassExcludesPunctuation(c: char)
    requires InPathClass(c)
    ensures c != '/' && c != '\\' && c != ':' && c != ','
  {
  }

  /** One left-to-right pass over the path body: every character is in
      the class or is `sep`, and no `sep` comes right after a `sep` (or
      first, when `afterSep` holds at the start). */
  function ScanBody(w: string, sep: char, afterSep: bool): (ok: bool)
    requires !InPathClass(sep)
    ensures ok <==>
      && (forall i :: 0 <= i < |w| ==> InPathClass(w[i]) || w[i] == sep)
      && (forall i :: 0 < i < |w| && w[i] == sep ==> w[i - 1] != sep)
      && (afterSep && |w| > 0 ==> w[0] != sep)
  {
    if w == [] then true
    else if w[0] == sep then
      !afterSep && ScanBody(w[1..], sep, true)
    else
      InPathClass(w[0]) && ScanBody(w[1..], sep, false)
  }

  /** `Utils.validateFilePath(filePath)`. */
  function ValidateFilePath(filePath: string): (ok: bool)
    ensures StartsWith(filePath, '/') ==> (ok <==>
      && (forall i :: 1 <= i < |filePath| ==> InPathClass(filePath[i]) || filePath[i] == '/')
      && (forall i :: 1 <= i < |filePath| && filePath[i] == '/' ==> filePath[i - 1] != '/'))
    ensures !StartsWith(filePath, '/') ==> (ok <==>
      && |filePath| >= 3
      && IsAsciiLetter(filePath[0]) && filePath[1] == ':' && filePath[2] == '\\'
      && (forall i :: 3 <= i < |filePath| ==> InPathClass(filePath[i]) || filePath[i] == '\\')
      && (forall i :: 3 <= i < |filePath| && filePath[i] == '\\' ==> filePath[i - 1] != '\\'))
  {
    if StartsWith(filePath, '/') then
      var ok := ScanBody(filePath[1..], '/', true);
      assert forall i :: 1 <= i < |filePath| ==> filePath[i] == filePath[1..][i - 1];
      ok
    else
      var ok := |filePath| >= 3 && IsAsciiLetter(filePath[0]) && filePath[1] == ':' && filePath[2] == '\\'
        && ScanBody(filePath[3..], '\\', true);
      assert |filePath| >= 3 ==> forall i :: 3 <= i < |filePath| ==> filePath[i] == filePath[3..][i - 3];
      ok
  }

  /** An accepted path has no comma; a Unix-like one has no `\` or `:`, a
      Windows one no `/` and its only `:` after the drive letter. */
  lemma AcceptedPathPunctuation(filePath: string)
    requires ValidateFilePath(filePath)
    ensures ',' !in filePath
    ensures StartsWith(filePath, '/') ==> '\\' !in filePath && ':' !in filePath
    ensures !StartsWith(filePath, '/') ==> '/' !in filePath && ':' !in filePath[2..]
  {
    var lo := if StartsWith(filePath, '/') then 1 else 3;
    forall i | lo <= i < |filePath| && InPathClass(filePath[i])
      ensures filePath[i] !in "/\\:,"
    {
      PathClassExcludesPunctuation(filePath[i]);
    }
    if !StartsWith(filePath, '/') {
      assert forall i :: 0 <= i < |filePath[2..]| ==> filePath[2..][i] == filePath[i + 2];
    }
  }

  // The regular expressions themselves, read as languages.

  /** One repetition of `([class]+sep?)`: at least one class character,
      optionally followed by one separator. */
  ghost predicate Chunk(w: string, sep: char)
  {
    || (|w| >= 1 && forall i :: 0 <= i < |w| ==> InPathClass(w[i]))
    || (|w| >= 2 && (forall i :: 0 <= i < |w| - 1 ==> InPathClass(w[i])) && w[|w| - 1] == sep)
  }

  /** `([class]+sep?)*`: empty, or a chunk followed by more of the same. */
  ghost predicate ChunkStar(w: string, sep: char)
    decreases |w|
  {
    || w == []
    || exists k :: 1 <= k <= |w| && Chunk(w[..k], sep) && ChunkStar(w[k..], sep)
  }

  /** `/^\/([class]+\/?)*$/`. */
  ghost predicate MatchesUnixPattern(filePath: string)
  {
    |filePath| >= 1 && filePath[0] == '/' && ChunkStar(filePath[1..], '/')
  }

  /** `/^([a-zA-Z]:\\)([class]+\\?)*$/`. */
  ghost predicate MatchesWindowsPattern(filePath: string)
  {
    && |filePath| >= 3
    && IsAsciiLetter(filePath[0]) && filePath[1] == ':' && filePath[2] == '\\'
    && ChunkStar(filePath[3..], '\\')
  }

  /** The scan started after a separator is the stricter one. */
  lemma ScanAfterSepStricter(w: string, sep: char)
    requires !InPathClass(sep)
    requires ScanBody(w, sep, true)
    ensures ScanBody(w, sep, false)
  {
  }

  /** Class characters in front of a body leave the scan in the "not after a
      separator" state. */
  lemma {:induction false} ScanClassPrefix(u: string, rest: string, sep: char, afterSep: bool)
    requires !InPathClass(sep)
    requires |u| >= 1 && forall i :: 0 <= i < |u| ==> InPathClass(u[i])
    ensures ScanBody(u + rest, sep, afterSep) == ScanBody(rest, sep, false)
    decreases |u|
  {
    assert (u + rest)[1..] == u[1..] + rest;
    if |u| > 1 {
      ScanClassPrefix(u[1..], rest, sep, false);
    } else {
      assert (u + rest)[1..] == rest;
    }
  }

  /** A chunk of class characters in front of an accepted body keeps it
      accepted. */
  lemma ClassChunkThenScan(c: string, rest: string, sep: char)
    requires !InPathClass(sep)
    requires |c| >= 1 && forall i :: 0 <= i < |c| ==> InPathClass(c[i])
    requires ScanBody(rest, sep, true)
    ensures ScanBody(c + rest, sep, true)
  {
    ScanClassPrefix(c, rest, sep, true);
    ScanAfterSepStricter(rest, sep);
  }

  /** So does a chunk of class characters closed by a separator. */
  lemma SepChunkThenScan(u: string, rest: string, sep: char)
    requires !InPathClass(sep)
    requires |u| >= 1 && forall i :: 0 <= i < |u| ==> InPathClass(u[i])
    requires ScanBody(rest, sep, true)
    ensures ScanBody(u + [sep] + rest, sep, true)
  {
    var tail := [sep] + rest;
    assert u + [sep] + rest == u + tail;
    ScanClassPrefix(u, tail, sep, true);
    assert tail[1..] == rest;
  }

  /** A chunk in front of an accepted body keeps it accepted. */
  lemma ChunkThenScan(c: string, rest: string, sep: char)
    requires !InPathClass(sep)
    requires Chunk(c, sep) && ScanBody(rest, sep, true)
    ensures ScanBody(c + rest, sep, true)
  {
    if forall i :: 0 <= i < |c| ==> InPathClass(c[i]) {
      ClassChunkThenScan(c, rest, sep);
    } else {
      var u := c[..|c| - 1];
      assert c == u + [sep];
      SepChunkThenScan(u, rest, sep);
    }
  }

  /** Whatever the pattern matches, the scan accepts. */
  lemma {:induction false} ChunkStarScans(w: string, sep: char)
    requires !InPathClass(sep)
    requires ChunkStar(w, sep)
    ensures ScanBody(w, sep, true)
    decreases |w|
  {
    if w != [] {
      var k :| 1 <= k <= |w| && Chunk(w[..k], sep) && ChunkStar(w[k..], sep);
      ChunkStarScans(w[k..], sep);
      ChunkThenScan(w[..k], w[k..], sep);
      assert w == w[..k] + w[k..];
    }
  }

  /** Whatever the scan accepts, the pattern matches: one class character
      per chunk, taking the separator along when it follows. */
  lemma {:induction false} ScanChunkStar(w: string, sep: char)
    requires !InPathClass(sep)
    requires ScanBody(w, sep, true)
    ensures ChunkStar(w, sep)
    decreases |w|
  {
    if w != [] {
      if |w| >= 2 && w[1] == sep {
        assert Chunk(w[..2], sep);
        assert ScanBody(w[2..], sep, true) by {
          assert w[1..][1..] == w[2..];
        }
        ScanChunkStar(w[2..], sep);
        assert ChunkStar(w, sep) by {
          assert 1 <= 2 <= |w| && Chunk(w[..2], sep) && ChunkStar(w[2..], sep);
        }
      } else {
        assert Chunk(w[..1], sep);
        ScanChunkStar(w[1..], sep);
        assert ChunkStar(w, sep) by {
          assert 1 <= 1 <= |w| && Chunk(w[..1], sep) && ChunkStar(w[1..], sep);
        }
      }
    }
  }

  /** `validateFilePath` accepts exactly what its regular expression
      matches. */
  lemma ValidateFilePathIsPatternMatch(filePath: string)
    ensures ValidateFilePath(filePath) <==>
      if StartsWith(filePath, '/') then MatchesUnixPattern(filePath) else MatchesWindowsPattern(filePath)
  {
    if StartsWith(filePath, '/') {
      if ValidateFilePath(filePath) {
        ScanChunkStar(filePath[1..], '/');
      }
      if MatchesUnixPattern(filePath) {
        ChunkStarScans(filePath[1..], '/');
      }
    } else if |filePath| >= 3 {
      if ValidateFilePath(filePath) {
        ScanChunkStar(filePath[3..], '\\');
      }
      if MatchesWindowsPattern(filePath) {
        ChunkStarScans(filePath[3..], '\\');
      }
    }
  }
}
