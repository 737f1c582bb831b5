/** The navigation bar (components/navbar.tsx): the avatar initials and the
    theme toggle. The notes view (components/notes-view.tsx) carries a copy of
    the same initials helper. */
module Navbar {
  import opened Strings
  import opened Domain

  /** `.map(n => n[0])`: the first character of each piece, `undefined` for an empty piece. */
  function Heads(words: seq<String>): (hs: seq<Option<char>>)
    ensures |hs| == |words|
    ensures forall i :: 0 <= i < |words| ==> hs[i] == (if words[i] == [] then None else Some(words[i][0]))
  {
    if words == [] then []
    else [if words[0] == [] then None else Some(words[0][0])] + Heads(words[1..])
  }

  /** `.join("")`: `undefined` elements render as the empty string. */
  function JoinHeads(hs: seq<Option<char>>): (r: String)
    ensures |r| <= |hs|
    ensures forall c :: c in r <==> Some(c) in hs
    ensures (forall i :: 0 <= i < |hs| ==> hs[i].Some?) ==> |r| == |hs|
  {
    if hs == [] then []
    else
      var rest := JoinHeads(hs[1..]);
      assert forall o :: o in hs <==> o == hs[0] || o in hs[1..];
      assert forall i :: 1 <= i < |hs| ==> hs[i] == hs[1..][i - 1];
      (if hs[0].Some? then [hs[0].value] else []) + rest
  }

  /** The first letters of the space-separated words, read straight off the
      name: each character that is not a space and starts the name or follows
      a space. `afterSpace` says whether the character before `s` was a space
      (or there was none). */
  function WordStartsFrom(s: String, afterSpace: bool): (r: String)
    ensures forall k :: 0 <= k < |r| ==> r[k] in s && r[k] != ' '
  {
    if s == [] then []
    else (if afterSpace && s[0] != ' ' then [s[0]] else []) + WordStartsFrom(s[1..], s[0] == ' ')
  }

  function WordStarts(s: String): String {
    WordStartsFrom(s, true)
  }

  /** `getInitials(name)`. */
  function GetInitials(name: Option<String>): (r: String)
    ensures !Truthy(name) ==> r == "U"
    ensures |r| <= 2
  {
    if !Truthy(name) then "U"
    else Substring(Upper(JoinHeads(Heads(Split(name.value, ' ')))), 0, 2)
  }

  /** The pieces after the first of a split start exactly at the characters
      that follow a space; the first piece starts the string. */
  lemma {:induction false} HeadsOfSplit(s: String)
    ensures JoinHeads(Heads(Split(s, ' '))) == WordStartsFrom(s, true)
    ensures JoinHeads(Heads(Split(s, ' ')[1..])) == WordStartsFrom(s, false)
  {
    if s != [] {
      var rest := Split(s[1..], ' ');
      HeadsOfSplit(s[1..]);
      var parts := Split(s, ' ');
      if s[0] == ' ' {
        assert parts == [[]] + rest;
        assert parts[1..] == rest;
        assert Heads(parts) == [None] + Heads(rest);
      } else {
        assert parts == [[s[0]] + rest[0]] + rest[1..];
        assert parts[1..] == rest[1..];
        assert Heads(parts) == [Some(s[0])] + Heads(parts[1..]);
      }
    }
  }

  /** Outside the `"U"` case, the initials are the first letters of the words,
      empty words contributing nothing, upper-cased and cut to two. */
  lemma GetInitialsSpec(name: String)
    requires name != []
    ensures var starts := Upper(WordStarts(name));
            GetInitials(Some(name)) == if |starts| <= 2 then starts else starts[..2]
  {
    HeadsOfSplit(name);
    var starts := Upper(WordStarts(name));
    assert Upper(JoinHeads(Heads(Split(name, ' ')))) == starts;
    assert GetInitials(Some(name)) == Substring(starts, 0, 2);
    if |starts| <= 2 {
      assert Clamp(2, 0, |starts|) == |starts|;
      assert starts[0..|starts|] == starts;
    }
  }

  /** A word contributes its first letter when it starts after a space, and nothing else. */
  lemma {:induction false} WordStartsOfWord(w: String, rest: String, afterSpace: bool)
    requires w != [] && ' ' !in w
    ensures WordStartsFrom(w + rest, afterSpace) == (if afterSpace then [w[0]] else []) + WordStartsFrom(rest, false)
    decreases |w|
  {
    assert (w + rest)[0] == w[0];
    if |w| == 1 {
      assert (w + rest)[1..] == rest;
    } else {
      assert (w + rest)[1..] == w[1..] + rest;
      assert w[1] in w;
      WordStartsOfWord(w[1..], rest, false);
    }
  }

  function Spaces(n: nat): (r: String)
    ensures |r| == n && forall k :: 0 <= k < n ==> r[k] == ' '
  {
    if n == 0 then [] else [' '] + Spaces(n - 1)
  }

  /** A run of spaces contributes nothing and leaves the next character at a word start. */
  lemma {:induction false} WordStartsOfSpaces(n: nat, rest: String, afterSpace: bool)
    requires n >= 1
    ensures WordStartsFrom(Spaces(n) + rest, afterSpace) == WordStartsFrom(rest, true)
  {
    assert (Spaces(n) + rest)[1..] == Spaces(n - 1) + rest;
    if n > 1 {
      WordStartsOfSpaces(n - 1, rest, true);
    }
  }

  /** Two words separated by any number of spaces give their two first
      letters, upper-cased (`"Sushant Verma"` gives `"SV"`). */
  lemma GetInitialsTwoWords(first: String, spaces: nat, second: String)
    requires first != [] && ' ' !in first && second != [] && ' ' !in second
    requires spaces >= 1
    ensures GetInitials(Some(first + Spaces(spaces) + second)) == Upper([first[0], second[0]])
  {
    var name := first + Spaces(spaces) + second;
    assert name == first + (Spaces(spaces) + (second + []));
    WordStartsOfWord(first, Spaces(spaces) + (second + []), true);
    WordStartsOfSpaces(spaces, second + [], false);
    WordStartsOfWord(second, [], true);
    GetInitialsSpec(name);
  }

  /** A single word gives its first letter, upper-cased. */
  lemma GetInitialsOneWord(word: String)
    requires word != [] && ' ' !in word
    ensures GetInitials(Some(word)) == Upper([word[0]])
  {
    assert word == word + [];
    WordStartsOfWord(word, [], true);
    GetInitialsSpec(word);
  }

  /** A name of spaces alone gives no letter at all, not the `"U"` fallback. */
  lemma GetInitialsBlankName(spaces: nat)
    requires spaces >= 1
    ensures GetInitials(Some(Spaces(spaces))) == []
  {
    assert Spaces(spaces) == Spaces(spaces) + [];
    WordStartsOfSpaces(spaces, [], true);
    GetInitialsSpec(Spaces(spaces));
  }

  /** The theme toggle: `"dark"` becomes `"light"`, anything else (including no theme yet) `"dark"`. */
  function NextTheme(theme: Option<String>): (r: String)
    ensures r == "light" <==> theme == Some("dark")
    ensures r == "light" || r == "dark"
    ensures theme.Some? ==> r != theme.value
  {
    if theme == Some("dark") then "light" else "dark"
  }

  /** Toggling twice gives the theme back exactly when it was one of the two the toggle sets. */
  lemma NextThemeTwice(theme: String)
    ensures NextTheme(Some(NextTheme(Some(theme)))) == theme <==> theme == "dark" || theme == "light"
  {
  }
}
