/**
  Quoting a watch expression for `-var-create`.

  The create command passes the expression as a quoted argument, which GDB/MI reads as
  a C string: inside the quotes a backslash escapes the character after it.  The
  expression therefore has to be escaped so that GDB reads back exactly the text the
  user typed.  The action escapes double quotes only; an expression that itself holds a
  backslash (the character literal `'\\'`, a string such as `"a\tb"`) reaches GDB
  altered.  `EscapeQuotes` is the escaping as written, which the create action of this
  model uses; `Escape` also escapes the backslash.
*/
module Quoting {
  import opened Reply

  /** The escaping as written: a backslash before every double quote, and nothing else. */
  function EscapeQuotes(s: string): string {
    if s == [] then []
    else (if s[0] == '"' then ['\\', '"'] else [s[0]]) + EscapeQuotes(s[1..])
  }

  /** C-string escaping of the two characters that matter inside quotes: backslash and double quote. */
  function Escape(s: string): string {
    if s == [] then []
    else (if s[0] == '"' || s[0] == '\\' then ['\\', s[0]] else [s[0]]) + Escape(s[1..])
  }

  /**
    How GDB/MI reads a quoted argument, from just after its opening quote: the content up
    to the first quote that no backslash escapes, and the text after that quote.  Input
    that ends inside the quotes is refused.  Of the C escapes only `\\` and `\"` are
    modelled; any other escape is refused as well.
  */
  function Unquote(t: string): Option<(string, string)>
    decreases |t|
  {
    if t == [] then None
    else if t[0] == '"' then Some(([], t[1..]))
    else if t[0] == '\\' then
      if |t| >= 2 && (t[1] == '\\' || t[1] == '"') then
        match Unquote(t[2..])
        case None => None
        case Some(p) => Some(([t[1]] + p.0, p.1))
      else None
    else
      match Unquote(t[1..])
      case None => None
      case Some(p) => Some(([t[0]] + p.0, p.1))
  }

  /** GDB reads back exactly the escaped text, and stops at the closing quote. */
  lemma {:induction false} UnquoteEscape(s: string, rest: string)
    ensures Unquote(Escape(s) + "\"" + rest) == Some((s, rest))
  {
    var t := Escape(s) + "\"" + rest;
    if s == [] {
      assert t == ['"'] + rest;
    } else {
      UnquoteEscape(s[1..], rest);
      if s[0] == '"' || s[0] == '\\' {
        assert t == ['\\', s[0]] + (Escape(s[1..]) + "\"" + rest);
        assert t[2..] == Escape(s[1..]) + "\"" + rest;
        assert t[0] == '\\' && t[1] == s[0];
      } else {
        assert t == [s[0]] + (Escape(s[1..]) + "\"" + rest);
        assert t[1..] == Escape(s[1..]) + "\"" + rest;
      }
      assert [s[0]] + s[1..] == s;
    }
  }

  /** The escaping as written is right for every expression without a backslash. */
  lemma {:induction false} UnquoteEscapeQuotes(s: string, rest: string)
    requires '\\' !in s
    ensures Unquote(EscapeQuotes(s) + "\"" + rest) == Some((s, rest))
  {
    var t := EscapeQuotes(s) + "\"" + rest;
    if s == [] {
      assert t == ['"'] + rest;
    } else {
      assert '\\' !in s[1..] by {
        assert forall c <- s[1..] :: c in s;
      }
      UnquoteEscapeQuotes(s[1..], rest);
      if s[0] == '"' {
        assert t == ['\\', '"'] + (EscapeQuotes(s[1..]) + "\"" + rest);
        assert t[2..] == EscapeQuotes(s[1..]) + "\"" + rest;
        assert t[0] == '\\' && t[1] == s[0];
      } else {
        assert s[0] != '\\' by {
          assert s[0] in s;
        }
        assert t == [s[0]] + (EscapeQuotes(s[1..]) + "\"" + rest);
        assert t[1..] == EscapeQuotes(s[1..]) + "\"" + rest;
      }
      assert [s[0]] + s[1..] == s;
    }
  }

  /** The character literal `'\\'`, escaped as written, reaches GDB as the unterminated `'\'`. */
  lemma EscapeQuotesGarbles()
    ensures EscapeQuotes("'\\\\'") == "'\\\\'"
    ensures Unquote(EscapeQuotes("'\\\\'") + "\"") == Some(("'\\'", ""))
  {
    var s := "'\\\\'";
    assert EscapeQuotes(s[3..]) == "'";
    assert EscapeQuotes(s[2..]) == "\\'";
    assert EscapeQuotes(s[1..]) == "\\\\'";
    assert EscapeQuotes(s) == s;
    var t := s + "\"";
    assert t[4..] == "\"";
    assert t[4..][1..] == "";
    assert t[3..] == "'\"" && t[3..][1..] == t[4..];
    assert Unquote(t[3..]) == Some(("'", ""));
    assert t[1..] == "\\\\'\"" && t[1..][2..] == t[3..];
    assert Unquote(t[1..]) == Some(("\\'", ""));
    assert t[0] == '\'' && ['\''] + "\\'" == "'\\'";
    assert Unquote(t) == Some(("'\\'", ""));
  }
}
