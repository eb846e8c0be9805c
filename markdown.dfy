/**
 * The clean-up chain the chat page runs over a message's content before it
 * hands the text to the markdown renderer: eight global `replace` calls on
 * an immutable string, applied one after another.
 *
 * Each call is a `Rewrite`. A global replace scans the string from left to
 * right; at every position it tries to match its pattern there; on a match
 * it emits the replacement and resumes after the match, otherwise it copies
 * one character and moves on. None of the eight patterns can match the
 * empty string, so every match consumes at least one character.
 */
module Markdown {
  import opened Wrappers

  /** One global replacement of the chain, named after what it does. */
  datatype Rewrite =
      /** A pattern without metacharacters: every occurrence of `target`
          is replaced by `replacement`. */
    | Literal(target: string, replacement: string)
      /** Two quotes, optional white space, a run of non-colons, then a
          colon and two asterisks: rewritten to two asterisks, a quote,
          the run, a colon, a quote and two asterisks. */
    | BoldLabel
      /** Two quotes, a non-empty run of non-quotes, two quotes: rewritten
          to the run between single quotes. */
    | DoubledQuotes
      /** A non-empty run of word characters, a colon and a quote: replaced
          by the captured run and colon followed by a quote. */
    | LabelQuote
      /** Two asterisks and a quote, a non-empty run of non-quotes, a quote
          and two asterisks: replaced by the same frame around the run. */
    | BoldQuote

  /** A match that ends (exclusively) at `end` and is replaced by `text`. */
  datatype Hit = Hit(end: nat, text: string)

  /** A literal pattern must not be empty. */
  predicate ValidRewrite(r: Rewrite)
  {
    r.Literal? ==> |r.target| > 0
  }

  /** A character that every match of `r` contains. */
  function Key(r: Rewrite): char
    requires ValidRewrite(r)
  {
    match r
    case Literal(t, _) => t[0]
    case _ => '"'
  }

  /** White space as the regular-expression class `\s` of JavaScript
      defines it: the white-space and line-terminator code points. */
  predicate IsSpace(c: char)
  {
    c == '\t' || c == '\n' || c == '\U{B}' || c == '\U{C}' || c == '\r'
    || c == ' ' || c == '\U{A0}' || c == '\U{1680}'
    || ('\U{2000}' <= c <= '\U{200A}')
    || c == '\U{2028}' || c == '\U{2029}' || c == '\U{202F}' || c == '\U{205F}'
    || c == '\U{3000}' || c == '\U{FEFF}'
  }

  /** A word character as the class `\w` defines it. */
  predicate IsWordChar(c: char)
  {
    ('a' <= c <= 'z') || ('A' <= c <= 'Z') || ('0' <= c <= '9') || c == '_'
  }

  /** `t` occurs in `s` starting at index `i`. */
  predicate HasAt(s: string, i: nat, t: string)
  {
    i + |t| <= |s| && s[i..i + |t|] == t
  }

  /** The end of the longest run of characters satisfying `p` that starts
      at `j`: what a greedy `p+` or `p*` consumes from `j`. */
  function Span(s: string, j: nat, p: char -> bool): (k: nat)
    requires j <= |s|
    ensures j <= k <= |s|
    ensures forall m :: j <= m < k ==> p(s[m])
    ensures k < |s| ==> !p(s[k])
    decreases |s| - j
  {
    if j == |s| || !p(s[j]) then j else Span(s, j + 1, p)
  }

  /** A literal `t`, replaced by `rep`, at `i`. */
  function MatchLiteral(t: string, rep: string, s: string, i: nat): (h: Option<Hit>)
    requires |t| > 0 && i < |s|
    ensures h.Some? <==> HasAt(s, i, t)
    ensures h.Some? ==> h.value.end == i + |t| && h.value.text == rep && t[0] in s[i..i + |t|]
  {
    if HasAt(s, i, t) then
      assert s[i..i + |t|][0] == t[0];
      Some(Hit(i + |t|, rep))
    else None
  }

  /** Two quotes, greedy white space, a non-empty run of non-colons and a
      colon with two asterisks, starting at `i`. The run of non-colons must
      end at the first colon; the white space is as long as possible, but
      gives back its last character when the run would otherwise be empty. */
  function MatchBoldLabel(s: string, i: nat): (h: Option<Hit>)
    requires i < |s|
    ensures h.Some? ==> i + 2 < h.value.end - 3 && h.value.end <= |s|
    ensures h.Some? ==> s[i] == '"' && s[i + 1] == '"' && HasAt(s, h.value.end - 3, ":**")
    ensures h.Some? ==> forall m :: i + 2 <= m < h.value.end - 3 ==> s[m] != ':'
    ensures h.Some? ==>
              var c := h.value.end - 3;
              var p := c - (|h.value.text| - 7);
              i + 2 <= p < c && h.value.text == "**\"" + s[p..c] + ":\"**"
              && (forall m :: i + 2 <= m < p ==> IsSpace(s[m]))
              && (p + 1 == c || !IsSpace(s[p]))
  {
    if !HasAt(s, i, "\"\"") then None
    else
      assert s[i..i + 2] == [s[i], s[i + 1]];
      var e := Span(s, i + 2, IsSpace);
      var c := Span(s, i + 2, ch => ch != ':');
      if c > i + 2 && HasAt(s, c, ":**") then
        assert s[c..c + 3][0] == s[c];
        var p := if c == e then c - 1 else e;
        Some(Hit(c + 3, "**\"" + s[p..c] + ":\"**"))
      else None
  }

  /** Two quotes, a non-empty run of non-quotes and two quotes, starting at
      `i`; the run ends at the first quote after the opening pair. */
  function MatchDoubledQuotes(s: string, i: nat): (h: Option<Hit>)
    requires i < |s|
    ensures h.Some? ==> i + 2 < h.value.end - 2 && h.value.end <= |s|
    ensures h.Some? ==> HasAt(s, i, "\"\"") && HasAt(s, h.value.end - 2, "\"\"")
    ensures h.Some? ==> forall m :: i + 2 <= m < h.value.end - 2 ==> s[m] != '"'
    ensures h.Some? ==> h.value.text == "\"" + s[i + 2..h.value.end - 2] + "\""
  {
    if !HasAt(s, i, "\"\"") then None
    else
      var q := Span(s, i + 2, ch => ch != '"');
      if q > i + 2 && HasAt(s, q, "\"\"") then
        Some(Hit(q + 2, "\"" + s[i + 2..q] + "\""))
      else None
  }

  /** A non-empty run of word characters followed by a colon and a quote,
      starting at `i`. A shorter run would be followed by a word character,
      so the run is the longest one from `i`. */
  function MatchLabelQuote(s: string, i: nat): (h: Option<Hit>)
    requires i < |s|
    ensures h.Some? ==> i + 2 < h.value.end <= |s|
    ensures h.Some? ==> forall m :: i <= m < h.value.end - 2 ==> IsWordChar(s[m])
    ensures h.Some? ==> HasAt(s, h.value.end - 2, ":\"")
    ensures h.Some? ==> h.value.text == s[i..h.value.end]
  {
    var e := Span(s, i, IsWordChar);
    if e > i && HasAt(s, e, ":\"") then
      assert s[e..e + 2] == [s[e], s[e + 1]];
      Some(Hit(e + 2, s[i..e + 1] + "\""))
    else None
  }

  /** Two asterisks and a quote, a non-empty run of non-quotes, a quote and
      two asterisks, starting at `i`. */
  function MatchBoldQuote(s: string, i: nat): (h: Option<Hit>)
    requires i < |s|
    ensures h.Some? ==> i + 3 < h.value.end - 3 && h.value.end <= |s|
    ensures h.Some? ==> HasAt(s, i, "**\"") && HasAt(s, h.value.end - 3, "\"**")
    ensures h.Some? ==> forall m :: i + 3 <= m < h.value.end - 3 ==> s[m] != '"'
    ensures h.Some? ==> h.value.text == s[i..h.value.end]
  {
    if !HasAt(s, i, "**\"") then None
    else
      var q := Span(s, i + 3, ch => ch != '"');
      if q > i + 3 && HasAt(s, q, "\"**") then
        assert s[i..q + 3] == s[i..i + 3] + s[i + 3..q] + s[q..q + 3];
        Some(Hit(q + 3, "**\"" + s[i + 3..q] + "\"**"))
      else None
  }

  // ----- Each matcher finds the occurrence that starts at `i` -----

  /** An occurrence of the colon-label pattern whose first colon is at `c`
      is found, and the match ends after the two asterisks. */
  lemma BoldLabelFound(s: string, i: nat, c: nat)
    requires i < |s| && HasAt(s, i, "\"\"") && i + 2 < c && HasAt(s, c, ":**")
    requires forall m :: i + 2 <= m < c ==> s[m] != ':'
    ensures MatchBoldLabel(s, i).Some? && MatchBoldLabel(s, i).value.end == c + 3
  {
    assert s[c..c + 3][0] == s[c];
  }

  /** A quoted run between doubled quotes, closing at `q`, is found and
      rewritten to the run between single quotes. */
  lemma DoubledQuotesFound(s: string, i: nat, q: nat)
    requires i < |s| && HasAt(s, i, "\"\"") && i + 2 < q && HasAt(s, q, "\"\"")
    requires forall m :: i + 2 <= m < q ==> s[m] != '"'
    ensures MatchDoubledQuotes(s, i) == Some(Hit(q + 2, "\"" + s[i + 2..q] + "\""))
  {
    assert s[q..q + 2][0] == s[q];
  }

  /** A run of word characters from `i` to `e` followed by a colon and a
      quote is found. */
  lemma LabelQuoteFound(s: string, i: nat, e: nat)
    requires i < e && HasAt(s, e, ":\"")
    requires forall m :: i <= m < e ==> IsWordChar(s[m])
    ensures MatchLabelQuote(s, i) == Some(Hit(e + 2, s[i..e + 2]))
  {
    assert s[e..e + 2][0] == s[e];
  }

  /** A quoted run between two-asterisk frames, closing at `q`, is found. */
  lemma BoldQuoteFound(s: string, i: nat, q: nat)
    requires i < |s| && HasAt(s, i, "**\"") && i + 3 < q && HasAt(s, q, "\"**")
    requires forall m :: i + 3 <= m < q ==> s[m] != '"'
    ensures MatchBoldQuote(s, i) == Some(Hit(q + 3, s[i..q + 3]))
  {
    assert s[q..q + 3][0] == s[q];
  }

  /** The match of `r` starting exactly at `i`, if there is one. */
  function MatchAt(r: Rewrite, s: string, i: nat): (h: Option<Hit>)
    requires ValidRewrite(r) && i < |s|
    ensures h.Some? ==> i < h.value.end <= |s|
    ensures h.Some? ==> Key(r) in s[i..h.value.end]
    ensures h.Some? && (r.LabelQuote? || r.BoldQuote?) ==> h.value.text == s[i..h.value.end]
  {
    match r
    case Literal(t, rep) => MatchLiteral(t, rep, s, i)
    case BoldLabel =>
      var h := MatchBoldLabel(s, i);
      assert h.Some? ==> s[i..h.value.end][0] == s[i];
      h
    case DoubledQuotes =>
      var h := MatchDoubledQuotes(s, i);
      assert h.Some? ==> s[i..h.value.end][0] == s[i..i + 2][0];
      h
    case LabelQuote =>
      var h := MatchLabelQuote(s, i);
      assert h.Some? ==> s[i..h.value.end][h.value.end - 1 - i] == s[h.value.end - 2..h.value.end][1];
      h
    case BoldQuote =>
      var h := MatchBoldQuote(s, i);
      assert h.Some? ==> s[i..h.value.end][2] == s[i..i + 3][2];
      h
  }

  /** The global replacement of `r` applied to `s` from index `i` on. */
  function ReplaceFrom(r: Rewrite, s: string, i: nat): string
    requires ValidRewrite(r) && i <= |s|
    decreases |s| - i
  {
    if i == |s| then ""
    else
      match MatchAt(r, s, i)
      case Some(h) => h.text + ReplaceFrom(r, s, h.end)
      case None => [s[i]] + ReplaceFrom(r, s, i + 1)
  }

  /** No match of `r` starts at index `i` of `s`. */
  predicate NoMatchAt(r: Rewrite, s: string, i: nat)
    requires ValidRewrite(r) && i < |s|
  {
    MatchAt(r, s, i).None?
  }

  /** A character at which no match starts is copied. */
  lemma CopiedAt(r: Rewrite, s: string, i: nat)
    requires ValidRewrite(r) && i < |s|
    requires NoMatchAt(r, s, i)
    ensures ReplaceFrom(r, s, i) == [s[i]] + ReplaceFrom(r, s, i + 1)
  {
  }

  /** A match is replaced, and the scan resumes where it ends. */
  lemma ReplacedAt(r: Rewrite, s: string, i: nat)
    requires ValidRewrite(r) && i < |s|
    requires MatchAt(r, s, i).Some?
    ensures MatchAt(r, s, i).value.end <= |s|
    ensures ReplaceFrom(r, s, i)
            == MatchAt(r, s, i).value.text + ReplaceFrom(r, s, MatchAt(r, s, i).value.end)
  {
  }

  /** Characters at which no match starts are copied as they are, and the
      scan goes on right after them. */
  lemma {:induction false} UnmatchedCopied(r: Rewrite, s: string, i: nat, j: nat)
    requires ValidRewrite(r) && i <= j <= |s|
    requires forall k :: i <= k < j ==> NoMatchAt(r, s, k)
    ensures ReplaceFrom(r, s, i) == s[i..j] + ReplaceFrom(r, s, j)
    decreases j - i
  {
    if i < j {
      CopiedAt(r, s, i);
      UnmatchedCopied(r, s, i + 1, j);
      assert [s[i]] + s[i + 1..j] == s[i..j];
    }
  }

  /** `s.replace(pattern, replacement)` with the global flag. A string the
      pattern matches nowhere is returned as it is. */
  function ReplaceAll(r: Rewrite, s: string): (t: string)
    requires ValidRewrite(r)
    ensures (forall k :: 0 <= k < |s| ==> NoMatchAt(r, s, k)) ==> t == s
  {
    assert (forall k :: 0 <= k < |s| ==> NoMatchAt(r, s, k)) ==> ReplaceFrom(r, s, 0) == s by {
      if forall k :: 0 <= k < |s| ==> NoMatchAt(r, s, k) {
        UnmatchedCopied(r, s, 0, |s|);
        assert s[0..|s|] == s;
      }
    }
    ReplaceFrom(r, s, 0)
  }

  /** The first step of the chain: a backslash followed by `n` becomes a
      newline character. */
  const UnescapeNewline: Rewrite := Literal("\\n", "\n")

  /** The chain of app/chat/page.jsx, in order. */
  const Chain: seq<Rewrite> := [
    UnescapeNewline,
    Literal("\\*", "*"),
    Literal("\\\"", "\""),
    Literal("##\"\"##", ""),
    BoldLabel,
    DoubledQuotes,
    LabelQuote,
    BoldQuote
  ]

  /** Applies `steps` to `s`, first step first. */
  function ApplyAll(steps: seq<Rewrite>, s: string): string
    requires forall k :: 0 <= k < |steps| ==> ValidRewrite(steps[k])
  {
    if steps == [] then s else ApplyAll(steps[1..], ReplaceAll(steps[0], s))
  }

  /** Running two chains one after the other is running their
      concatenation: each step's output is the next step's input. */
  lemma {:induction false} ApplyAllAppend(first: seq<Rewrite>, second: seq<Rewrite>, s: string)
    requires forall k :: 0 <= k < |first| ==> ValidRewrite(first[k])
    requires forall k :: 0 <= k < |second| ==> ValidRewrite(second[k])
    ensures ApplyAll(first + second, s) == ApplyAll(second, ApplyAll(first, s))
  {
    if first == [] {
      assert first + second == second;
    } else {
      assert (first + second)[1..] == first[1..] + second;
      ApplyAllAppend(first[1..], second, ReplaceAll(first[0], s));
    }
  }

  /** The content the page renders for a message whose content is `content`.
      The last two replacements change nothing, so it is what the first six
      produce. */
  function Preprocess(content: string): (r: string)
    ensures r == ApplyAll(Chain[..6], content)
  {
    var t := ApplyAll(Chain[..6], content);
    var u := ReplaceAll(LabelQuote, t);
    CopyingRewritesAreIdentity(t);
    CopyingRewritesAreIdentity(u);
    assert [LabelQuote, BoldQuote][1..] == [BoldQuote] && [BoldQuote][1..] == [];
    assert ApplyAll([BoldQuote], u) == ReplaceAll(BoldQuote, u) == t;
    assert ApplyAll([LabelQuote, BoldQuote], t) == ApplyAll([BoldQuote], u);
    assert Chain == Chain[..6] + [LabelQuote, BoldQuote];
    ApplyAllAppend(Chain[..6], [LabelQuote, BoldQuote], content);
    ApplyAll(Chain, content)
  }

  // ----- The replacements that copy their match -----

  /** From any index on, a rewrite whose replacement is exactly the matched
      text reproduces the rest of the string. */
  lemma {:induction false} CopyingRewriteFrom(r: Rewrite, s: string, i: nat)
    requires r == LabelQuote || r == BoldQuote
    requires i <= |s|
    ensures ReplaceFrom(r, s, i) == s[i..]
    decreases |s| - i
  {
    if i < |s| {
      var m := MatchAt(r, s, i);
      if m.Some? {
        ReplacedAt(r, s, i);
        CopyingRewriteFrom(r, s, m.value.end);
        assert s[i..m.value.end] + s[m.value.end..] == s[i..];
      } else {
        assert NoMatchAt(r, s, i);
        CopiedAt(r, s, i);
        CopyingRewriteFrom(r, s, i + 1);
        assert [s[i]] + s[i + 1..] == s[i..];
      }
    }
  }

  /** The last two replacements of the chain change no string at all. */
  lemma CopyingRewritesAreIdentity(s: string)
    ensures ReplaceAll(LabelQuote, s) == s
    ensures ReplaceAll(BoldQuote, s) == s
  {
    CopyingRewriteFrom(LabelQuote, s, 0);
    CopyingRewriteFrom(BoldQuote, s, 0);
  }

  // ----- Strings the chain leaves alone -----

  /** A rewrite cannot match at `i` when its key character does not occur
      from `i` on. */
  lemma NoKeyNoMatch(r: Rewrite, s: string, i: nat)
    requires ValidRewrite(r) && i < |s|
    requires Key(r) !in s[i..]
    ensures MatchAt(r, s, i).None?
  {
  }

  /** Without its key character the rest of the string passes a rewrite
      unchanged. */
  lemma {:induction false} KeyFreeFrom(r: Rewrite, s: string, i: nat)
    requires ValidRewrite(r) && i <= |s|
    requires Key(r) !in s[i..]
    ensures ReplaceFrom(r, s, i) == s[i..]
    decreases |s| - i
  {
    if i < |s| {
      NoKeyNoMatch(r, s, i);
      assert s[i + 1..] == s[i..][1..];
      KeyFreeFrom(r, s, i + 1);
      assert [s[i]] + s[i + 1..] == s[i..];
    }
  }

  /** A sequence of rewrites none of whose key characters occurs in `s`
      leaves `s` unchanged. */
  lemma {:induction false} KeyFreeApplyAll(steps: seq<Rewrite>, s: string)
    requires forall k :: 0 <= k < |steps| ==> ValidRewrite(steps[k])
    requires forall k :: 0 <= k < |steps| ==> Key(steps[k]) !in s
    ensures ApplyAll(steps, s) == s
  {
    if steps != [] {
      KeyFreeFrom(steps[0], s, 0);
      assert s[0..] == s;
      KeyFreeApplyAll(steps[1..], s);
    }
  }

  /** Content with no backslash, no `#` and no quote is rendered as it is. */
  lemma PlainContentUnchanged(s: string)
    requires '\\' !in s && '#' !in s && '"' !in s
    ensures Preprocess(s) == s
  {
    KeyFreeApplyAll(Chain, s);
  }

  // ----- The first step removes every escaped newline -----

  /** `t` holds a backslash immediately followed by `n`. */
  ghost predicate HasEscapedNewline(t: string)
  {
    exists j :: 0 <= j < |t| - 1 && t[j] == '\\' && t[j + 1] == 'n'
  }

  /** From index `i` on, the first step emits no backslash-`n` pair, and
      its output starts with a newline where an escaped newline stood and
      with the copied character otherwise. */
  lemma {:induction false} UnescapeNewlineFrom(s: string, i: nat)
    requires i <= |s|
    ensures !HasEscapedNewline(ReplaceFrom(UnescapeNewline, s, i))
    ensures i == |s| <==> ReplaceFrom(UnescapeNewline, s, i) == ""
    ensures i < |s| ==> ReplaceFrom(UnescapeNewline, s, i)[0]
                        == if HasAt(s, i, "\\n") then '\n' else s[i]
    decreases |s| - i
  {
    if i < |s| {
      var next := if HasAt(s, i, "\\n") then i + 2 else i + 1;
      var head := if HasAt(s, i, "\\n") then "\n" else [s[i]];
      var rest := ReplaceFrom(UnescapeNewline, s, next);
      UnescapeNewlineFrom(s, next);
      assert ReplaceFrom(UnescapeNewline, s, i) == head + rest;
      var t := head + rest;
      forall j | 0 <= j < |t| - 1
        ensures !(t[j] == '\\' && t[j + 1] == 'n')
      {
        if j == 0 {
          if next == i + 1 && s[i] == '\\' {
            assert t[1] == rest[0];
            assert s[i + 1] != 'n' by {
              assert s[i..i + 2] == [s[i], s[i + 1]];
            }
          }
        } else {
          assert t[j] == rest[j - 1] && t[j + 1] == rest[j];
        }
      }
    }
  }

  /** After the first step of the chain no backslash-`n` pair is left. */
  lemma NoEscapedNewlineAfterFirstStep(s: string)
    ensures !HasEscapedNewline(ReplaceAll(UnescapeNewline, s))
  {
    if |s| > 0 {
      UnescapeNewlineFrom(s, 0);
    }
  }
}
