/**
 * The filename sanitiser of the episode downloader (`PodcastDownloader._sanitize_filename`):
 * every character that is not safe in a file name becomes an underscore, and whitespace
 * is then trimmed from both ends as Python's `str.strip()` does.
 */
module FilenameSanitizer {

  /** The characters the sanitiser replaces, in the order its loop visits them. */
  const InvalidChars: string := "<>:\"/\\|?*"

  /** Python's `str.isspace()`: the characters `str.strip()` with no argument removes. */
  predicate IsWhitespace(c: char)
  {
    || c == '\t' || c == '\n' || c == '\U{0B}' || c == '\U{0C}' || c == '\r'
    || ('\U{1C}' <= c <= '\U{1F}') || c == ' ' || c == '\U{85}' || c == '\U{A0}'
    || c == '\U{1680}' || ('\U{2000}' <= c <= '\U{200A}') || c == '\U{2028}' || c == '\U{2029}'
    || c == '\U{202F}' || c == '\U{205F}' || c == '\U{3000}'
  }

  /** Python's `s.replace(target, replacement)` for single characters. */
  function Replace(s: string, target: char, replacement: char): string
  {
    seq(|s|, i requires 0 <= i < |s| => if s[i] == target then replacement else s[i])
  }

  /** `s` with every character that occurs in `chars` replaced by an underscore. */
  function ReplaceAll(s: string, chars: string): string
  {
    seq(|s|, i requires 0 <= i < |s| => if s[i] in chars then '_' else s[i])
  }

  /** How many whitespace characters `s` starts with. */
  function LeadingWhitespace(s: string): (n: nat)
    ensures n <= |s|
    ensures forall i :: 0 <= i < n ==> IsWhitespace(s[i])
    ensures n < |s| ==> !IsWhitespace(s[n])
  {
    if s != [] && IsWhitespace(s[0]) then 1 + LeadingWhitespace(s[1..]) else 0
  }

  /** How many whitespace characters `s` ends with. */
  function TrailingWhitespace(s: string): (n: nat)
    ensures n <= |s|
    ensures forall i :: |s| - n <= i < |s| ==> IsWhitespace(s[i])
    ensures n < |s| ==> !IsWhitespace(s[|s| - n - 1])
  {
    if s != [] && IsWhitespace(s[|s| - 1]) then 1 + TrailingWhitespace(s[..|s| - 1]) else 0
  }

  /** Python's `s.lstrip()`. */
  function TrimStart(s: string): string
  {
    s[LeadingWhitespace(s)..]
  }

  /** Python's `s.rstrip()`. */
  function TrimEnd(s: string): string
  {
    s[..|s| - TrailingWhitespace(s)]
  }

  /** Python's `s.strip()`. */
  function Strip(s: string): string
  {
    TrimEnd(TrimStart(s))
  }

  /** What the sanitiser returns for `filename`. */
  function Sanitized(filename: string): string
  {
    Strip(ReplaceAll(filename, InvalidChars))
  }

  /**
   * `_sanitize_filename` itself: one `replace` pass per invalid character,
   * then `strip()`.
   */
  method SanitizeFilename(filename: string) returns (r: string)
    ensures r == Sanitized(filename)
    ensures forall i :: 0 <= i < |r| ==> r[i] !in InvalidChars
    ensures |r| <= |filename|
  {
    var name := filename;
    for k := 0 to |InvalidChars|
      invariant name == ReplaceAll(filename, InvalidChars[..k])
    {
      name := Replace(name, InvalidChars[k], '_');
      assert InvalidChars[..k + 1] == InvalidChars[..k] + [InvalidChars[k]];
    }
    assert InvalidChars[..|InvalidChars|] == InvalidChars;
    r := Strip(name);
    SanitizedHasNoInvalidChars(filename);
  }

  /**
   * `Strip(s)` is the slice of `s` left between its leading and its trailing whitespace,
   * and neither end of it is whitespace.
   */
  lemma StripIsSlice(s: string)
    ensures var a := LeadingWhitespace(s); var b := a + |Strip(s)|;
      && b <= |s| && Strip(s) == s[a..b]
      && (forall i :: 0 <= i < a ==> IsWhitespace(s[i]))
      && (forall i :: b <= i < |s| ==> IsWhitespace(s[i]))
      && (Strip(s) != [] ==> !IsWhitespace(Strip(s)[0]) && !IsWhitespace(Strip(s)[|Strip(s)| - 1]))
  {
    var a := LeadingWhitespace(s);
    var t := TrimStart(s);
    var b := a + |Strip(s)|;
    assert forall i :: b <= i < |s| ==> s[i] == t[i - a];
  }

  /** Membership in `InvalidChars`, spelled out. */
  lemma InvalidCharsAre(c: char)
    ensures c in InvalidChars <==>
      c == '<' || c == '>' || c == ':' || c == '"' || c == '/' || c == '\\' || c == '|' || c == '?' || c == '*'
  {
    if c in InvalidChars {
      var k :| 0 <= k < |InvalidChars| && InvalidChars[k] == c;
      assert k < 9;
    } else {
      assert InvalidChars[0] == '<' && InvalidChars[1] == '>' && InvalidChars[2] == ':';
      assert InvalidChars[3] == '"' && InvalidChars[4] == '/' && InvalidChars[5] == '\\';
      assert InvalidChars[6] == '|' && InvalidChars[7] == '?' && InvalidChars[8] == '*';
    }
  }

  /** The sanitised name contains none of `< > : " / \ | ? *`. */
  lemma SanitizedHasNoInvalidChars(filename: string)
    ensures forall i :: 0 <= i < |Sanitized(filename)| ==> Sanitized(filename)[i] !in InvalidChars
  {
    var replaced := ReplaceAll(filename, InvalidChars);
    StripIsSlice(replaced);
  }

  /** Replacement is one for one and stripping only removes characters. */
  lemma SanitizedIsNoLonger(filename: string)
    ensures |Sanitized(filename)| <= |filename|
  {
  }

  /** A name with no invalid characters and no whitespace at either end is left as it is. */
  lemma SanitizedFixesCleanNames(name: string)
    requires forall i :: 0 <= i < |name| ==> name[i] !in InvalidChars
    requires name != [] ==> !IsWhitespace(name[0]) && !IsWhitespace(name[|name| - 1])
    ensures Sanitized(name) == name
  {
    assert ReplaceAll(name, InvalidChars) == name;
  }

  /** Sanitising twice gives the same name as sanitising once. */
  lemma SanitizedIsIdempotent(filename: string)
    ensures Sanitized(Sanitized(filename)) == Sanitized(filename)
  {
    SanitizedHasNoInvalidChars(filename);
    StripIsSlice(ReplaceAll(filename, InvalidChars));
    SanitizedFixesCleanNames(Sanitized(filename));
  }

  /** The replacement step of `SanitizedExample`, one character at a time. */
  lemma ReplacedExample()
    ensures ReplaceAll("My: Show/1.mp3", InvalidChars) == "My_ Show_1.mp3"
  {
    var replaced := ReplaceAll("My: Show/1.mp3", InvalidChars);
    InvalidCharsAre('M'); assert replaced[0] == 'M';
    InvalidCharsAre('y'); assert replaced[1] == 'y';
    InvalidCharsAre(':'); assert replaced[2] == '_';
    InvalidCharsAre(' '); assert replaced[3] == ' ';
    InvalidCharsAre('S'); assert replaced[4] == 'S';
    InvalidCharsAre('h'); assert replaced[5] == 'h';
    InvalidCharsAre('o'); assert replaced[6] == 'o';
    InvalidCharsAre('w'); assert replaced[7] == 'w';
    InvalidCharsAre('/'); assert replaced[8] == '_';
    InvalidCharsAre('1'); assert replaced[9] == '1';
    InvalidCharsAre('.'); assert replaced[10] == '.';
    InvalidCharsAre('m'); assert replaced[11] == 'm';
    InvalidCharsAre('p'); assert replaced[12] == 'p';
    InvalidCharsAre('3'); assert replaced[13] == '3';
  }

  /** The colon and the slash each become one underscore; the space between them stays. */
  lemma SanitizedExample()
    ensures Sanitized("My: Show/1.mp3") == "My_ Show_1.mp3"
  {
    ReplacedExample();
    assert LeadingWhitespace("My_ Show_1.mp3") == 0;
    assert TrailingWhitespace("My_ Show_1.mp3") == 0;
  }

  /** The replacement step of `SanitizedTrimsExample`, one character at a time. */
  lemma ReplacedTrimsExample()
    ensures ReplaceAll("  a?b\t", InvalidChars) == "  a_b\t"
  {
    var replaced := ReplaceAll("  a?b\t", InvalidChars);
    InvalidCharsAre(' '); assert replaced[0] == ' ' && replaced[1] == ' ';
    InvalidCharsAre('a'); assert replaced[2] == 'a';
    InvalidCharsAre('?'); assert replaced[3] == '_';
    InvalidCharsAre('b'); assert replaced[4] == 'b';
    InvalidCharsAre('\t'); assert replaced[5] == '\t';
  }

  /** Whitespace around the name goes once the invalid character is replaced. */
  lemma SanitizedTrimsExample()
    ensures Sanitized("  a?b\t") == "a_b"
  {
    ReplacedTrimsExample();
    var replaced := ReplaceAll("  a?b\t", InvalidChars);
    assert replaced[1..] == " a_b\t" && replaced[2..] == "a_b\t";
    assert LeadingWhitespace(replaced[2..]) == 0;
    assert LeadingWhitespace(replaced) == 2;
    assert ("a_b\t")[..3] == "a_b";
    assert TrailingWhitespace("a_b") == 0;
    assert TrailingWhitespace("a_b\t") == 1;
  }

  /** A name made only of whitespace sanitises to the empty name. */
  lemma SanitizedBlankExample()
    ensures Sanitized(" \n ") == ""
  {
    forall c | c in " \n " ensures c !in InvalidChars {
      InvalidCharsAre(c);
    }
    assert ReplaceAll(" \n ", InvalidChars) == " \n ";
    assert (" \n ")[1..] == "\n " && ("\n ")[1..] == " " && (" ")[1..] == "";
    assert LeadingWhitespace(" \n ") == 3;
  }
}
