/**
 * The Markdown escaping of src/core/utils/sanitizer.py, applied to user names before
 * they are put into a reply.
 */
module Sanitizer {

  /** The characters `user_name` escapes, the class `[>`*_\-~|]` of its pattern. */
  predicate IsSpecial(c: char)
  {
    c == '>' || c == '`' || c == '*' || c == '_' || c == '-' || c == '~' || c == '|'
  }

  /** How many characters of `s` are special. */
  function CountSpecial(s: string): nat
  {
    if s == [] then 0 else (if IsSpecial(s[0]) then 1 else 0) + CountSpecial(s[1..])
  }

  /** `user_name`: a backslash goes in front of every special character; the output
      grows by exactly one character per special character of the input. */
  function UserName(s: string): (r: string)
    ensures |r| == |s| + CountSpecial(s)
    ensures s != [] ==> r != [] && !IsSpecial(r[0])
  {
    if s == [] then []
    else if IsSpecial(s[0]) then ['\\', s[0]] + UserName(s[1..])
    else [s[0]] + UserName(s[1..])
  }

  /** Deletes each backslash that stands right before a special character. */
  function Unescape(s: string): string
  {
    if s == [] then []
    else if |s| >= 2 && s[0] == '\\' && IsSpecial(s[1]) then [s[1]] + Unescape(s[2..])
    else [s[0]] + Unescape(s[1..])
  }

  /** Deleting the inserted backslashes gives back the name: the escaping loses nothing. */
  lemma {:induction false} UnescapeUserName(s: string)
    ensures Unescape(UserName(s)) == s
  {
    if s != [] {
      UnescapeUserName(s[1..]);
      var rest := UserName(s[1..]);
      if IsSpecial(s[0]) {
        assert (['\\', s[0]] + rest)[2..] == rest;
      } else {
        assert ([s[0]] + rest)[1..] == rest;
      }
    }
  }

  /** Every special character of the output is escaped by the backslash before it. */
  lemma {:induction false} UserNameEscapesSpecials(s: string)
    ensures forall i :: 0 <= i < |UserName(s)| && IsSpecial(UserName(s)[i]) ==> i > 0 && UserName(s)[i - 1] == '\\'
  {
    if s != [] {
      UserNameEscapesSpecials(s[1..]);
      var rest := UserName(s[1..]);
      var r := UserName(s);
      var k := if IsSpecial(s[0]) then 2 else 1;
      assert r[k..] == rest;
      forall i | 0 <= i < |r| && IsSpecial(r[i])
        ensures i > 0 && r[i - 1] == '\\'
      {
        if i > k {
          assert r[i] == rest[i - k] && r[i - 1] == rest[i - 1 - k];
        }
      }
    }
  }

  /** `user_name_special_quotes`: every backtick becomes an apostrophe, for names shown
      between backticks; every other character is kept in place. */
  function UserNameSpecialQuotes(s: string): (r: string)
    ensures |r| == |s|
    ensures forall i :: 0 <= i < |s| ==> r[i] == (if s[i] == '`' then '\'' else s[i])
  {
    if s == [] then []
    else [if s[0] == '`' then '\'' else s[0]] + UserNameSpecialQuotes(s[1..])
  }

  /** The result has no backtick left, so quoting it again changes nothing. */
  lemma SpecialQuotesIdempotent(s: string)
    ensures '`' !in UserNameSpecialQuotes(s)
    ensures UserNameSpecialQuotes(UserNameSpecialQuotes(s)) == UserNameSpecialQuotes(s)
  {
    var r := UserNameSpecialQuotes(s);
    assert forall i :: 0 <= i < |r| ==> r[i] != '`';
  }
}
