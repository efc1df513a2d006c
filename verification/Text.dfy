/** Trimming, letter case, splitting and lengths of text. */
module Text {

  predicate IsSpace(c: char) {
    c == ' ' || ('\t' <= c <= '\r')
  }

  function TrimLeft(s: string): string {
    if s != "" && IsSpace(s[0]) then TrimLeft(s[1..]) else s
  }

  function TrimRight(s: string): string {
    if s != "" && IsSpace(s[|s| - 1]) then TrimRight(s[..|s| - 1]) else s
  }

  function TrimSpace(s: string): string {
    TrimRight(TrimLeft(s))
  }

  predicate Blank(s: string) {
    TrimSpace(s) == ""
  }

  /** No NUL and no line break. */
  predicate OneLine(s: string) {
    '\0' !in s && '\r' !in s && '\n' !in s
  }

  /** Lower case, ASCII only. */
  function Lower(s: string): string {
    seq(|s|, i requires 0 <= i < |s| => if 'A' <= s[i] <= 'Z' then s[i] - 'A' + 'a' else s[i])
  }

  /** Upper case, ASCII only. */
  function Upper(s: string): string {
    seq(|s|, i requires 0 <= i < |s| => if 'a' <= s[i] <= 'z' then s[i] - 'a' + 'A' else s[i])
  }

  /** No white space at either end. */
  predicate Trimmed(s: string) {
    s == "" || (!IsSpace(s[0]) && !IsSpace(s[|s| - 1]))
  }

  lemma {:induction false} TrimLeftTrims(s: string)
    ensures |TrimLeft(s)| <= |s| && s[|s| - |TrimLeft(s)|..] == TrimLeft(s)
    ensures TrimLeft(s) != "" ==> !IsSpace(TrimLeft(s)[0])
  {
    if s != "" && IsSpace(s[0]) {
      TrimLeftTrims(s[1..]);
    }
  }

  lemma {:induction false} TrimRightTrims(s: string)
    ensures |TrimRight(s)| <= |s| && s[..|TrimRight(s)|] == TrimRight(s)
    ensures TrimRight(s) != "" ==> !IsSpace(TrimRight(s)[|TrimRight(s)| - 1])
  {
    if s != "" && IsSpace(s[|s| - 1]) {
      TrimRightTrims(s[..|s| - 1]);
    }
  }

  lemma TrimSpaceTrims(s: string)
    ensures Trimmed(TrimSpace(s)) && TrimSpace(TrimSpace(s)) == TrimSpace(s)
  {
    TrimLeftTrims(s);
    TrimRightTrims(TrimLeft(s));
    TrimmedStays(TrimSpace(s));
  }

  lemma TrimmedStays(s: string)
    requires Trimmed(s)
    ensures TrimSpace(s) == s
  {
  }

  /** Folding case after trimming leaves nothing to trim or fold. */
  lemma LowerStays(s: string)
    requires Trimmed(s)
    ensures Trimmed(Lower(s)) && Lower(TrimSpace(Lower(s))) == Lower(s)
  {
    TrimmedStays(Lower(s));
  }

  /** strings.Split for a separator of one character. */
  function Split(s: string, separator: char): (parts: seq<string>)
    ensures parts != []
  {
    if s == "" then [""]
    else
      var rest := Split(s[1..], separator);
      if s[0] == separator then [""] + rest else [[s[0]] + rest[0]] + rest[1..]
  }

  /** len of a Go string, which is in UTF-8. */
  function Utf8Length(s: string): nat {
    if s == "" then 0
    else (if s[0] < '\U{80}' then 1 else if s[0] < '\U{800}' then 2 else if s[0] < '\U{10000}' then 3 else 4)
         + Utf8Length(s[1..])
  }

  /** len of the same text in UTF-16. */
  function Utf16Length(s: string): nat {
    if s == "" then 0 else (if s[0] < '\U{10000}' then 1 else 2) + Utf16Length(s[1..])
  }

  /*************** at the boundaries ***************/

  lemma SpacesAre(c: char)
    ensures IsSpace(c) <==> c in {' ', '\t', '\n', '\U{0B}', '\U{0C}', '\r'}
  {
  }

  lemma LettersFold()
    ensures Lower("AZaz@[") == "azaz@[" && Upper("azAZ`{") == "AZAZ`{"
  {
    assert |Lower("AZaz@[")| == 6 && |Upper("azAZ`{")| == 6;
  }

  /** The first and last characters of one to four bytes, and of one and two UTF-16 units. */
  lemma EncodedLengths()
    ensures Utf8Length("\U{00}") == Utf8Length("\U{7F}") == 1 && Utf8Length("\U{80}") == Utf8Length("\U{7FF}") == 2
    ensures Utf8Length("\U{800}") == Utf8Length("\U{FFFF}") == 3
    ensures Utf8Length("\U{10000}") == Utf8Length("\U{10FFFF}") == 4
    ensures Utf16Length("\U{00}") == Utf16Length("\U{FFFF}") == 1
    ensures Utf16Length("\U{10000}") == Utf16Length("\U{10FFFF}") == 2
  {
    forall c: char ensures Utf8Length([c]) == Utf8Length([c][..1]) && [c][1..] == "" {}
  }
}
