/** The deterministic parts of the voice analyser: cleaning the language
    model's reply before it is parsed as JSON, the suffix of the downloaded
    file, and the decision whether an audio file must be converted to WAV. */
module VoiceAnalyzer {
  import opened Text
  import opened Optional

  // ---------------------------------------------------------------------
  // Reply cleanup

  const JsonFence: string := "```json"
  const Fence: string := "```"

  /** A code fence is a run of three backquotes. */
  lemma FenceIsRun()
    ensures Fence == Repeat('`', 3)
  {
    assert Repeat('`', 3) == ['`'] + Repeat('`', 2);
    assert Repeat('`', 2) == ['`'] + Repeat('`', 1);
  }

  /** Fence removal: only when the reply holds an opening ```json fence are
      all ```json and then all ``` removed and the result stripped. */
  function RemoveFences(reply: string): (r: string)
    ensures Contains(reply, JsonFence) ==> !Contains(r, Fence)
    ensures !Contains(reply, JsonFence) ==> r == reply
  {
    if Contains(reply, JsonFence) then
      var unfenced := Replace(Replace(reply, JsonFence, ""), Fence, "");
      FenceIsRun();
      RemoveRunExcludesRepeat(Replace(reply, JsonFence, ""), '`', 3);
      StripKeepsAbsence(unfenced, Fence);
      Strip(unfenced)
    else reply
  }

  /** Index of the first `c` in `s`, or -1. */
  function IndexOf(s: string, c: char): (i: int)
    ensures i == -1 <==> c !in s
    ensures i != -1 ==> 0 <= i < |s| && s[i] == c && forall j | 0 <= j < i :: s[j] != c
  {
    if s == [] then -1
    else if s[0] == c then 0
    else
      var k := IndexOf(s[1..], c);
      if k == -1 then -1 else k + 1
  }

  /** Index of the last `c` in `s`, or -1. */
  function LastIndexOf(s: string, c: char): (j: int)
    ensures j == -1 <==> c !in s
    ensures j != -1 ==> 0 <= j < |s| && s[j] == c && forall q | j < q < |s| :: s[q] != c
  {
    if s == [] then -1
    else if s[|s| - 1] == c then |s| - 1
    else LastIndexOf(s[..|s| - 1], c)
  }

  /** Length of the match of `^[^{]*`: the longest prefix holding no `{`. */
  function OpenMatch(s: string): (n: nat)
    ensures n <= |s| && forall j | 0 <= j < n :: s[j] != '{'
    ensures n < |s| ==> s[n] == '{'
  {
    if s == [] || s[0] == '{' then 0 else OpenMatch(s[1..]) + 1
  }

  /** Length of the match of `[^}]*$`: the longest suffix holding no `}`. */
  function CloseMatch(s: string): (n: nat)
    ensures n <= |s| && forall j | |s| - n <= j < |s| :: s[j] != '}'
    ensures n < |s| ==> s[|s| - n - 1] == '}'
  {
    if s == [] || s[|s| - 1] == '}' then 0 else CloseMatch(s[..|s| - 1]) + 1
  }

  /** `re.sub(r'^[^{]*', '', s)`: the suffix from the first `{`, or empty. */
  function DropBeforeOpen(s: string): (r: string)
    ensures r == [] || r[0] == '{'
  {
    s[OpenMatch(s)..]
  }

  /** `re.sub(r'[^}]*$', '', s)`: the prefix up to the last `}`, or empty.
      A `$` that matches before a final newline gives the same result,
      since the greedy class also consumes that newline. */
  function DropAfterClose(s: string): (r: string)
    ensures r == [] || r[|r| - 1] == '}'
  {
    s[..|s| - CloseMatch(s)]
  }

  /** Lines 207-208: the two brace trims, in order. */
  function TrimToObject(s: string): (r: string)
    ensures r == [] || (r[0] == '{' && r[|r| - 1] == '}')
  {
    DropAfterClose(DropBeforeOpen(s))
  }

  /** Reference definition: the span from the first `{` to the last `}`
      inclusive, or empty when there is no such span. */
  function BraceSpan(s: string): (r: string)
  {
    var i := IndexOf(s, '{');
    var j := LastIndexOf(s, '}');
    if i == -1 || j < i then [] else s[i..j + 1]
  }

  /** The trimmed text is exactly the first-`{`-to-last-`}` span. */
  lemma TrimIsBraceSpan(s: string)
    ensures TrimToObject(s) == BraceSpan(s)
  {
    var i := IndexOf(s, '{');
    var j := LastIndexOf(s, '}');
    if i == -1 {
      NoOpenBraceGivesEmpty(s);
    } else if j < i {
      TrimNoCloseAfter(s, i, j);
    } else {
      TrimFromOpenToClose(s, i, j);
    }
  }

  /** The `^[^{]*` match ends at the first `{`. */
  lemma OpenMatchIsIndex(s: string)
    ensures IndexOf(s, '{') != -1 ==> OpenMatch(s) == IndexOf(s, '{')
  {
  }

  /** A last `}` that lies before the first `{` leaves nothing to keep. */
  lemma TrimNoCloseAfter(s: string, i: nat, j: int)
    requires i == IndexOf(s, '{') && j == LastIndexOf(s, '}') && j < i
    ensures TrimToObject(s) == []
  {
    OpenMatchIsIndex(s);
    NoCloseAfter(s, i, j);
  }

  /** With no `}` at or after `i`, the `[^}]*$` match covers all of `s[i..]`. */
  lemma NoCloseAfter(s: string, i: nat, j: int)
    requires i <= |s| && j < i && j == LastIndexOf(s, '}')
    ensures CloseMatch(s[i..]) == |s| - i
  {
  }

  /** Otherwise the two trims keep the first `{`, the last `}` and what lies
      between them. */
  lemma TrimFromOpenToClose(s: string, i: nat, j: nat)
    requires i == IndexOf(s, '{') && j == LastIndexOf(s, '}') && i <= j
    ensures TrimToObject(s) == s[i..j + 1]
  {
    OpenMatchIsIndex(s);
    CloseMatchIsIndex(s, i, j);
    var t := s[i..];
    assert t[..|t| - CloseMatch(t)] == s[i..j + 1];
  }

  /** In the suffix from the first `{`, the `[^}]*$` match begins after the
      last `}`. */
  lemma CloseMatchIsIndex(s: string, i: nat, j: nat)
    requires i <= j && j == LastIndexOf(s, '}')
    ensures CloseMatch(s[i..]) == |s| - 1 - j
  {
    var t := s[i..];
    assert t[j - i] == '}';
  }

  /** Text with no `{` is reduced to the empty string. */
  lemma NoOpenBraceGivesEmpty(s: string)
    requires '{' !in s
    ensures TrimToObject(s) == []
  {
  }

  /** Trimming twice is trimming once. */
  lemma TrimIdempotent(s: string)
    ensures TrimToObject(TrimToObject(s)) == TrimToObject(s)
  {
    var r := TrimToObject(s);
    if r != [] {
      assert OpenMatch(r) == 0;
      assert DropBeforeOpen(r) == r;
      assert CloseMatch(r) == 0;
    }
  }

  /** The trimmed text is an infix of its input. */
  lemma TrimIsInfix(s: string) returns (i: nat)
    ensures i <= |s| - |TrimToObject(s)| && TrimToObject(s) == s[i..i + |TrimToObject(s)|]
  {
    i := OpenMatch(s);
    var t := s[i..];
    var m := |t| - CloseMatch(t);
    SliceOfSlice(s, i, |s|, 0, m);
  }

  /** Lines 200-208: the reply as it is handed to the JSON parser. */
  function CleanReply(reply: string): (r: string)
    ensures r == [] || (r[0] == '{' && r[|r| - 1] == '}')
  {
    TrimToObject(Strip(RemoveFences(reply)))
  }

  /** A reply that held a ```json fence reaches the parser with no fence left. */
  lemma CleanReplyUnfenced(reply: string)
    requires Contains(reply, JsonFence)
    ensures !Contains(CleanReply(reply), Fence)
  {
    TrimKeepsAbsence(RemoveFences(reply), Fence);
  }

  /** Stripping and trimming to the object only cut text away, so they
      add no occurrence of a pattern. */
  lemma TrimKeepsAbsence(f: string, pat: string)
    requires !Contains(f, pat)
    ensures !Contains(TrimToObject(Strip(f)), pat)
  {
    StripKeepsAbsence(f, pat);
    TrimObjectKeepsAbsence(Strip(f), pat);
  }

  /** Nor does trimming to the object. */
  lemma TrimObjectKeepsAbsence(s: string, pat: string)
    requires !Contains(s, pat)
    ensures !Contains(TrimToObject(s), pat)
  {
    var i := TrimIsInfix(s);
    InfixKeepsAbsence(s, TrimToObject(s), i, pat);
  }

  /** A reply already shaped as an object, with no ```json fence, passes
      the cleanup unchanged. */
  lemma CleanReplyKeepsObject(reply: string)
    requires !Contains(reply, JsonFence)
    requires reply != [] && reply[0] == '{' && reply[|reply| - 1] == '}'
    ensures CleanReply(reply) == reply
  {
    assert !IsSpace(reply[0]) && !IsSpace(reply[|reply| - 1]);
    StripOfTrimmed(reply);
    assert OpenMatch(reply) == 0 && CloseMatch(reply) == 0;
  }

  /** `strip()` leaves a string that neither starts nor ends with whitespace
      as it is. */
  lemma StripOfTrimmed(s: string)
    requires s != [] && !IsSpace(s[0]) && !IsSpace(s[|s| - 1])
    ensures Strip(s) == s
  {
    var i := StripIsInfix(s);
  }

  // ---------------------------------------------------------------------
  // File names

  const DefaultExtension: string := ".mp3"

  /** Lines 33-37: the suffix of the temporary download file, the URL
      path's extension or `.mp3` when it has none. */
  function DownloadSuffix(extension: string): (suffix: string)
    ensures suffix != []
    ensures extension != [] ==> suffix == extension
    ensures extension == [] ==> suffix == DefaultExtension
  {
    if extension == [] then DefaultExtension else extension
  }

  /** Python's `str.lower()` on one character, for the ASCII letters. */
  function LowerChar(c: char): (l: char)
    ensures 'A' <= c <= 'Z' ==> l as int == c as int + 32
    ensures !('A' <= c <= 'Z') ==> l == c
  {
    if 'A' <= c <= 'Z' then (c as int + 32) as char else c
  }

  /** Python's `str.lower()`, character by character. */
  function Lower(s: string): (l: string)
    ensures |l| == |s| && forall k :: 0 <= k < |s| ==> l[k] == LowerChar(s[k])
  {
    if s == [] then [] else [LowerChar(s[0])] + Lower(s[1..])
  }

  const Wav: string := ".wav"
  const ConvertedSuffix: string := "_converted.wav"

  predicate IsWavExtension(extension: string) {
    Lower(extension) == Wav
  }

  /** The comparison is case-insensitive in exactly the four letters' cases. */
  lemma WavExtensionCases(extension: string)
    ensures IsWavExtension(extension) <==>
      |extension| == 4 && extension[0] == '.' && extension[1] in "wW" &&
      extension[2] in "aA" && extension[3] in "vV"
  {
    if |extension| == 4 {
      var l := Lower(extension);
      assert l == [l[0], l[1], l[2], l[3]];
    }
  }

  /** Lines 62-72: the converted file's path, where `path` splits into
      `root` and `extension`.  A `.wav` path (in any case) is kept; any
      other is exported to `root_converted.wav`, and a failed export gives
      None. */
  function ConvertAudioToWav(path: string, root: string, extension: string, exported: bool): (r: Option<string>)
    requires path == root + extension
    ensures IsWavExtension(extension) ==> r == Some(path)
    ensures !IsWavExtension(extension) && exported ==> r == Some(root + ConvertedSuffix)
    ensures !IsWavExtension(extension) && !exported ==> r == None
  {
    if !IsWavExtension(extension) then
      if exported then Some(root + ConvertedSuffix) else None
    else Some(path)
  }

  /** The file handed to transcription always carries a `.wav` extension. */
  lemma ConvertedIsWav(path: string, root: string, extension: string, exported: bool)
    requires path == root + extension
    requires ConvertAudioToWav(path, root, extension, exported).Some?
    ensures var out := ConvertAudioToWav(path, root, extension, exported).value;
      |out| >= 4 && IsWavExtension(out[|out| - 4..])
  {
    var out := ConvertAudioToWav(path, root, extension, exported).value;
    WavExtensionCases(extension);
    if IsWavExtension(extension) {
      assert out[|out| - 4..] == extension;
    } else {
      assert out[|out| - 4..] == Wav;
      assert Lower(Wav) == [LowerChar('.'), LowerChar('w'), LowerChar('a'), LowerChar('v')];
    }
  }

  /** When a conversion happens its output differs from the input, so the
      clean-up removes two distinct files; the extension that `splitext`
      returns is empty or begins with a dot. */
  lemma ConvertedDiffersFromInput(path: string, root: string, extension: string)
    requires path == root + extension
    requires extension == [] || extension[0] == '.'
    requires !IsWavExtension(extension)
    ensures ConvertAudioToWav(path, root, extension, true).value != path
  {
    var out := root + ConvertedSuffix;
    assert out[|root|] == '_';
    if |extension| == |ConvertedSuffix| {
      assert path[|root|] == extension[0];
    }
  }
}
