/** clickhouse/logs.go, parseMessageSearch: what the text of a search box asks for.

    The text is cut into terms at spaces; a term that a star starts or ends is a substring to look for,
    any other is cut into lower-cased words. */
module MessageSearch {
  import opened LogFilters

  /** What the unicode and strings packages tell of characters and words. */
  datatype Chars = Chars(isSpace: char -> bool, isNumber: char -> bool, isLetter: char -> bool, toLower: string -> string)

  // ----- cutting a text into words -----

  /** How far the text goes on without a cut. */
  function RunLength(s: string, cut: char -> bool): (n: nat)
    ensures n <= |s| && (forall k :: 0 <= k < n ==> !cut(s[k])) && (n < |s| ==> cut(s[n]))
  {
    if s == "" || cut(s[0]) then 0 else 1 + RunLength(s[1..], cut)
  }

  /** The words of a text, in order (strings.FieldsFunc). */
  function Words(s: string, cut: char -> bool): seq<string> {
    if s == "" then []
    else if cut(s[0]) then Words(s[1..], cut)
    else
      var n := RunLength(s, cut);
      [s[..n]] + Words(s[n..], cut)
  }

  /** s[i..j] is a run without a cut that cannot be made longer. */
  predicate IsRun(s: string, cut: char -> bool, i: nat, j: nat) {
    && i < j <= |s|
    && (forall k :: i <= k < j ==> !cut(s[k]))
    && (i > 0 ==> cut(s[i - 1]))
    && (j < |s| ==> cut(s[j]))
  }

  ghost predicate IsRunOf(s: string, cut: char -> bool, word: string) {
    exists i: nat, j: nat :: IsRun(s, cut, i, j) && s[i..j] == word
  }

  /** t is what follows the first n characters of s, which end with a cut or are followed by one. */
  predicate IsRest(s: string, t: string, cut: char -> bool, n: nat) {
    && |s| == n + |t|
    && (forall k :: 0 <= k < |t| ==> t[k] == s[n + k])
    && n > 0 && (cut(s[n - 1]) || (t != "" ==> cut(t[0])))
  }

  /** The runs of the rest are runs of the text ... */
  lemma RunUp(s: string, t: string, cut: char -> bool, n: nat, i: nat, j: nat)
    requires IsRest(s, t, cut, n) && IsRun(t, cut, i, j)
    ensures IsRun(s, cut, n + i, n + j) && s[n + i..n + j] == t[i..j]
  {
    forall k | n + i <= k < n + j ensures !cut(s[k]) {
      assert t[k - n] == s[n + (k - n)];
    }
    assert i > 0 ==> t[i - 1] == s[n + (i - 1)];
    assert t[i] == s[n + i];
  }

  /** ... and those of the text that start in the rest are runs of it. */
  lemma RunDown(s: string, t: string, cut: char -> bool, n: nat, i: nat, j: nat)
    requires IsRest(s, t, cut, n) && IsRun(s, cut, n + i, j)
    ensures j >= n && IsRun(t, cut, i, j - n) && s[n + i..j] == t[i..j - n]
  {
    forall k | i <= k < j - n ensures !cut(t[k]) {
      assert t[k] == s[n + k];
    }
    assert i > 0 ==> t[i - 1] == s[n + (i - 1)];
    assert j < |s| ==> t[j - n] == s[n + (j - n)];
  }

  /** Two ends of the run at the start of a text are one. */
  lemma OneEnd(s: string, cut: char -> bool, n: nat, m: nat)
    requires n <= |s| && (forall k :: 0 <= k < n ==> !cut(s[k])) && (n < |s| ==> cut(s[n]))
    requires m <= |s| && (forall k :: 0 <= k < m ==> !cut(s[k])) && (m < |s| ==> cut(s[m]))
    ensures n == m
  {
  }

  /** A run that starts before the end of the first word is that word. */
  lemma FirstRun(s: string, cut: char -> bool, i: nat, j: nat)
    requires s != "" && IsRun(s, cut, i, j) && i < FirstCut(s, cut)
    ensures !cut(s[0]) && i == 0 && j == RunLength(s, cut)
  {
    if !cut(s[0]) && i == 0 {
      OneEnd(s, cut, j, RunLength(s, cut));
    }
  }

  /** Where the rest of a text begins: past its first word, or past the cut it starts with. */
  function FirstCut(s: string, cut: char -> bool): (n: nat)
    requires s != ""
    ensures 0 < n <= |s|
  {
    if cut(s[0]) then 1 else RunLength(s, cut)
  }

  lemma RestIsRest(s: string, cut: char -> bool)
    requires s != ""
    ensures IsRest(s, s[FirstCut(s, cut)..], cut, FirstCut(s, cut))
  {
  }

  lemma RunInRest(s: string, cut: char -> bool, i: nat, j: nat)
    requires s != "" && IsRun(s, cut, i, j)
    ensures IsRunOf(s[FirstCut(s, cut)..], cut, s[i..j]) || (!cut(s[0]) && s[i..j] == s[..RunLength(s, cut)])
  {
    var n := FirstCut(s, cut);
    var t := s[n..];
    RestIsRest(s, cut);
    if i >= n {
      RunDown(s, t, cut, n, i - n, j);
      assert IsRun(t, cut, i - n, j - n);
    } else {
      FirstRun(s, cut, i, j);
    }
  }

  lemma RunOfRest(s: string, cut: char -> bool, i: nat, j: nat)
    requires s != "" && IsRun(s[FirstCut(s, cut)..], cut, i, j)
    ensures IsRunOf(s, cut, s[FirstCut(s, cut)..][i..j])
  {
    var n := FirstCut(s, cut);
    RestIsRest(s, cut);
    RunUp(s, s[n..], cut, n, i, j);
    assert IsRun(s, cut, n + i, n + j);
  }

  lemma RunsSplit(s: string, cut: char -> bool, word: string)
    requires s != ""
    ensures IsRunOf(s, cut, word)
       <==> IsRunOf(s[FirstCut(s, cut)..], cut, word) || (!cut(s[0]) && word == s[..RunLength(s, cut)])
  {
    var n := FirstCut(s, cut);
    if IsRunOf(s[n..], cut, word) {
      var i: nat, j: nat :| IsRun(s[n..], cut, i, j) && s[n..][i..j] == word;
      RunOfRest(s, cut, i, j);
    }
    if !cut(s[0]) {
      assert IsRun(s, cut, 0, n) && s[0..n] == s[..n];
    }
    if IsRunOf(s, cut, word) {
      var i: nat, j: nat :| IsRun(s, cut, i, j) && s[i..j] == word;
      RunInRest(s, cut, i, j);
    }
  }

  /** A text is a word exactly when it is such a run. */
  lemma {:induction false} WordsAreRuns(s: string, cut: char -> bool, word: string)
    ensures word in Words(s, cut) <==> IsRunOf(s, cut, word)
    decreases |s|
  {
    if s != "" {
      RunsSplit(s, cut, word);
      WordsAreRuns(s[FirstCut(s, cut)..], cut, word);
    }
  }

  /** A text that starts with a run starts with that word. */
  lemma {:induction false} WordHere(s: string, cut: char -> bool, n: nat)
    requires 0 < n <= |s| && (forall k :: 0 <= k < n ==> !cut(s[k])) && (n < |s| ==> cut(s[n]))
    ensures Words(s, cut) == [s[..n]] + Words(s[n..], cut)
  {
    OneEnd(s, cut, n, RunLength(s, cut));
  }

  /** A run up to i, then the rest. */
  lemma RunHere(s: string, cut: char -> bool, start: nat, i: nat)
    requires start < i <= |s| && (forall k :: start <= k < i ==> !cut(s[k])) && (i < |s| ==> cut(s[i]))
    ensures Words(s[start..], cut) == [s[start..i]] + Words(s[i..], cut)
  {
    var rest, n := s[start..], i - start;
    assert rest[..n] == s[start..i] && rest[n..] == s[i..];
    WordHere(rest, cut, n);
  }

  /** The words found, the one here, and those to come. */
  lemma WordDone(words: seq<string>, word: string, here: seq<string>, rest: seq<string>)
    requires here == [word] + rest
    ensures words + here == words + [word] + rest
  {
  }

  /** A cut is in no word. */
  lemma CutHere(s: string, cut: char -> bool, i: nat)
    requires i < |s| && cut(s[i])
    ensures Words(s[i..], cut) == Words(s[i + 1..], cut)
  {
    assert s[i..][1..] == s[i + 1..] && s[i..][0] == s[i];
  }

  method FieldsFunc(s: string, cut: char -> bool) returns (words: seq<string>)
    ensures words == Words(s, cut)
  {
    words := [];
    var start, i := 0, 0;
    var inWord := false;
    assert s[0..] == s;
    while i < |s|
      invariant 0 <= start <= i <= |s| && (!inWord ==> start == i)
      invariant inWord ==> start < i && forall k :: start <= k < i ==> !cut(s[k])
      invariant words + Words(s[start..], cut) == Words(s, cut)
    {
      if cut(s[i]) {
        if inWord {
          RunHere(s, cut, start, i);
          WordDone(words, s[start..i], Words(s[start..], cut), Words(s[i..], cut));
          words := words + [s[start..i]];
          inWord := false;
        }
        CutHere(s, cut, i);
        start := i + 1;
      } else {
        inWord := true;
      }
      i := i + 1;
    }
    if inWord {
      RunHere(s, cut, start, i);
      WordDone(words, s[start..i], Words(s[start..], cut), Words(s[i..], cut));
      words := words + [s[start..]];
    }
    assert s[i..] == "" && s[start..i] == s[start..];
  }

  // ----- the terms of a search -----

  predicate Starred(term: string) {
    term != "" && (term[0] == '*' || term[|term| - 1] == '*')
  }

  /** The term without the stars at its ends (strings.Trim). */
  function Trim(term: string): (r: string)
    ensures r == "" || (r[0] != '*' && r[|r| - 1] != '*')
    decreases |term|
  {
    if term == "" then ""
    else if term[0] == '*' then Trim(term[1..])
    else if term[|term| - 1] == '*' then Trim(term[..|term| - 1])
    else term
  }

  /** Spaces and the punctuation of ASCII end a word. */
  function EndsWord(chars: Chars): char -> bool {
    (r: char) => chars.isSpace(r) || (r as int <= 127 && !chars.isNumber(r) && !chars.isLetter(r))
  }

  /** What a term adds to the words to look for, and to the substrings. */
  function Tokens(chars: Chars, term: string): seq<string> {
    if Starred(term) then [] else Lower(chars, Words(term, EndsWord(chars)))
  }

  function Lower(chars: Chars, words: seq<string>): seq<string> {
    seq(|words|, i requires 0 <= i < |words| => chars.toLower(words[i]))
  }

  function Substrings(term: string): seq<string> {
    if Starred(term) && Trim(term) != "" then [Trim(term)] else []
  }

  function AllTokens(chars: Chars, terms: seq<string>): seq<string> {
    if terms == [] then [] else AllTokens(chars, terms[..|terms| - 1]) + Tokens(chars, terms[|terms| - 1])
  }

  function AllSubstrings(terms: seq<string>): seq<string> {
    if terms == [] then [] else AllSubstrings(terms[..|terms| - 1]) + Substrings(terms[|terms| - 1])
  }

  lemma NextTerm(chars: Chars, terms: seq<string>, i: nat)
    requires i < |terms|
    ensures AllTokens(chars, terms[..i + 1]) == AllTokens(chars, terms[..i]) + Tokens(chars, terms[i])
    ensures AllSubstrings(terms[..i + 1]) == AllSubstrings(terms[..i]) + Substrings(terms[i])
  {
    assert terms[..i + 1][..i] == terms[..i];
  }

  /** The words of a term, lower-cased. */
  method WordsOf(chars: Chars, term: string) returns (tokens: seq<string>)
    ensures tokens == Lower(chars, Words(term, EndsWord(chars)))
  {
    var words := FieldsFunc(term, EndsWord(chars));
    tokens := [];
    for j := 0 to |words|
      invariant tokens == Lower(chars, words)[..j]
    {
      tokens := tokens + [chars.toLower(words[j])];
    }
  }

  method ParseMessageSearch(chars: Chars, value: string) returns (res: Search)
    ensures var terms := Words(value, chars.isSpace); res == Search(AllTokens(chars, terms), AllSubstrings(terms))
  {
    var terms := FieldsFunc(value, chars.isSpace);
    var tokens, substrings: seq<string> := [], [];
    for i := 0 to |terms|
      invariant tokens == AllTokens(chars, terms[..i]) && substrings == AllSubstrings(terms[..i])
    {
      var term := terms[i];
      NextTerm(chars, terms, i);
      if Starred(term) {
        var sub := Trim(term);
        if sub != "" {
          substrings := substrings + [sub];
        }
        continue;
      }
      var words := WordsOf(chars, term);
      tokens := tokens + words;
    }
    assert terms[..|terms|] == terms;
    res := Search(tokens, substrings);
  }

  lemma {:induction false} TokensAre(chars: Chars, terms: seq<string>, t: string)
    ensures t in AllTokens(chars, terms) <==> exists term :: term in terms && t in Tokens(chars, term)
  {
    if terms != [] {
      var before, last := terms[..|terms| - 1], terms[|terms| - 1];
      TokensAre(chars, before, t);
      assert terms == before + [last];
      assert forall term :: term in terms <==> term in before || term == last;
    }
  }

  lemma {:induction false} SubstringsAre(terms: seq<string>, t: string)
    ensures t in AllSubstrings(terms) <==> exists term :: term in terms && t in Substrings(term)
  {
    if terms != [] {
      var before, last := terms[..|terms| - 1], terms[|terms| - 1];
      SubstringsAre(before, t);
      assert terms == before + [last];
      assert forall term :: term in terms <==> term in before || term == last;
    }
  }

  /** A term without stars at its ends, with one put there: a substring to look for. Without: words. */
  lemma {:induction false} StarredTerm(chars: Chars, x: string)
    requires x != "" && x[0] != '*' && x[|x| - 1] != '*'
    ensures Substrings("*" + x) == Substrings(x + "*") == Substrings("*" + x + "*") == [x]
    ensures Tokens(chars, "*" + x) == Tokens(chars, x + "*") == Tokens(chars, "*" + x + "*") == []
    ensures Substrings(x) == [] && Tokens(chars, x) == Lower(chars, Words(x, EndsWord(chars)))
  {
    var left, right, both := "*" + x, x + "*", "*" + x + "*";
    assert left[0] == '*' && left[1..] == x && right[0] == x[0] && right[|right| - 1] == '*' && right[..|right| - 1] == x;
    assert both[0] == '*' && both[1..] == right;
    assert Trim(x) == x;
    assert Trim(right) == x && Trim(left) == x;
    assert Trim(both) == x && both[|both| - 1] == '*';
  }

  /** Words end at spaces and at the ASCII characters that are no digits or letters. */
  lemma WordsEnd(chars: Chars, r: char)
    ensures EndsWord(chars)(r) <==> chars.isSpace(r) || (r <= '\U{7F}' && !chars.isNumber(r) && !chars.isLetter(r))
  {
  }

  /** A search asks for a word exactly when a run of the box between spaces, with no star at its ends, has
      it as a run between spaces and punctuation, in whatever case; and for a substring exactly when a
      starred run is it, without the stars. */
  lemma {:induction false} SearchMeans(chars: Chars, value: string, t: string)
    ensures t in AllTokens(chars, Words(value, chars.isSpace)) <==>
            exists term, word :: IsRunOf(value, chars.isSpace, term) && !Starred(term) && IsRunOf(term, EndsWord(chars), word)
                                 && chars.toLower(word) == t
    ensures t in AllSubstrings(Words(value, chars.isSpace)) <==>
            exists term :: IsRunOf(value, chars.isSpace, term) && Starred(term) && Trim(term) == t && t != ""
  {
    var terms := Words(value, chars.isSpace);
    TokensAre(chars, terms, t);
    SubstringsAre(terms, t);
    forall term ensures term in terms <==> IsRunOf(value, chars.isSpace, term) {
      WordsAreRuns(value, chars.isSpace, term);
    }
    forall term ensures t in Tokens(chars, term) <==>
                        !Starred(term) && exists word :: IsRunOf(term, EndsWord(chars), word) && chars.toLower(word) == t {
      TokensOfTerm(chars, term, t);
    }
  }

  lemma TokensOfTerm(chars: Chars, term: string, t: string)
    ensures t in Tokens(chars, term) <==>
            !Starred(term) && exists word :: IsRunOf(term, EndsWord(chars), word) && chars.toLower(word) == t
  {
    var words := Words(term, EndsWord(chars));
    forall word ensures word in words <==> IsRunOf(term, EndsWord(chars), word) {
      WordsAreRuns(term, EndsWord(chars), word);
    }
    if word :| word in words && chars.toLower(word) == t {
      var i :| 0 <= i < |words| && words[i] == word;
      assert Lower(chars, words)[i] == t;
    }
    if t in Lower(chars, words) {
      var i :| 0 <= i < |words| && Lower(chars, words)[i] == t;
      assert words[i] in words;
    }
  }
}
