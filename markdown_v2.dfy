/**
  Escaping of reply text for Telegram's MarkdownV2 parse mode
  (escape_markdown_v2 in telegram_bot.py): every occurrence of one of the
  eighteen reserved characters is prefixed with a backslash, everything else
  is copied unchanged.
 */
module MarkdownV2 {

  /** The characters the bot escapes, in the order the source lists them. */
  const ReservedChars: string := "_*[]()~`>#+-=|{}.!"

  const Backslash: char := '\\'

  predicate IsReserved(c: char) {
    c in ReservedChars
  }

  /** The replacement of one character: `\c` for a reserved `c`, `c` otherwise. */
  function EscapeChar(c: char): string {
    if IsReserved(c) then [Backslash, c] else [c]
  }

  /** The substitution performed by escape_markdown_v2, one character at a time from the left. */
  function Escape(text: string): string {
    if text == [] then [] else EscapeChar(text[0]) + Escape(text[1..])
  }

  /** Number of reserved characters in a text. */
  function CountReserved(text: string): nat {
    if text == [] then 0 else (if IsReserved(text[0]) then 1 else 0) + CountReserved(text[1..])
  }

  /** Drops a backslash that stands right before a reserved character; the inverse reading of Escape. */
  function Unescape(s: string): string {
    if s == [] then []
    else if |s| >= 2 && s[0] == Backslash && IsReserved(s[1]) then [s[1]] + Unescape(s[2..])
    else [s[0]] + Unescape(s[1..])
  }

  /** The list holds eighteen distinct characters, and the backslash is not one of them. */
  lemma ReservedCharsShape()
    ensures |ReservedChars| == 18
    ensures forall i, j :: 0 <= i < j < |ReservedChars| ==> ReservedChars[i] != ReservedChars[j]
    ensures !IsReserved(Backslash)
  {
  }

  /** Escaping is a homomorphism of strings: escaping a concatenation escapes each half. */
  lemma {:induction false} EscapeAppend(a: string, b: string)
    ensures Escape(a + b) == Escape(a) + Escape(b)
  {
    if a != [] {
      assert (a + b)[0] == a[0];
      assert (a + b)[1..] == a[1..] + b;
      EscapeAppend(a[1..], b);
      assert Escape(a + b) == EscapeChar(a[0]) + Escape(a[1..] + b);
    } else {
      assert a + b == b;
    }
  }

  /** Each reserved character adds exactly one character to the length. */
  lemma {:induction false} EscapeLength(text: string)
    ensures |Escape(text)| == |text| + CountReserved(text)
  {
    if text != [] {
      EscapeLength(text[1..]);
    }
  }

  /** Escaping changes a text exactly when it holds a reserved character. */
  lemma {:induction false} EscapeIdentity(text: string)
    ensures Escape(text) == text <==> forall i :: 0 <= i < |text| ==> !IsReserved(text[i])
  {
    EscapeLength(text);
    if text != [] {
      EscapeIdentity(text[1..]);
      if !IsReserved(text[0]) {
        assert text == [text[0]] + text[1..];
        assert (forall i :: 0 <= i < |text| ==> !IsReserved(text[i]))
          <==> (forall i :: 0 <= i < |text[1..]| ==> !IsReserved(text[1..][i]));
      } else {
        assert CountReserved(text) > 0;
      }
    }
  }

  /** An escaped text never starts with a reserved character. */
  lemma {:induction false} EscapeStartsUnreserved(text: string)
    ensures Escape(text) != [] ==> !IsReserved(Escape(text)[0])
  {
    if text != [] {
      assert Escape(text)[0] == EscapeChar(text[0])[0];
    }
  }

  /** In the escaped text every reserved character is immediately preceded by a backslash. */
  lemma {:induction false} EscapedReservedArePreceded(text: string)
    ensures forall i :: 0 <= i < |Escape(text)| && IsReserved(Escape(text)[i]) ==>
              i > 0 && Escape(text)[i - 1] == Backslash
  {
    if text != [] {
      EscapedReservedArePreceded(text[1..]);
      var head, tail := EscapeChar(text[0]), Escape(text[1..]);
      assert Escape(text) == head + tail;
      EscapeStartsUnreserved(text[1..]);
      forall i | 0 <= i < |head + tail| && IsReserved((head + tail)[i])
        ensures i > 0 && (head + tail)[i - 1] == Backslash
      {
        if i >= |head| {
          assert (head + tail)[i] == tail[i - |head|];
          if i > |head| {
            assert (head + tail)[i - 1] == tail[i - 1 - |head|];
          }
        }
      }
    }
  }

  /** Removing the inserted backslashes gives back the original text. */
  lemma {:induction false} UnescapeEscape(text: string)
    ensures Unescape(Escape(text)) == text
  {
    if text != [] {
      var c, rest := text[0], Escape(text[1..]);
      UnescapeEscape(text[1..]);
      if IsReserved(c) {
        assert Escape(text) == [Backslash, c] + rest;
        assert ([Backslash, c] + rest)[2..] == rest;
      } else {
        assert Escape(text) == [c] + rest;
        EscapeStartsUnreserved(text[1..]);
        assert ([c] + rest)[1..] == rest;
        assert !(|[c] + rest| >= 2 && c == Backslash && IsReserved(([c] + rest)[1]));
      }
      assert text == [c] + text[1..];
    }
  }

  /** Escaping is injective: different texts never produce the same reply. */
  lemma EscapeInjective(a: string, b: string)
    requires Escape(a) == Escape(b)
    ensures a == b
  {
    UnescapeEscape(a);
    UnescapeEscape(b);
  }
}
