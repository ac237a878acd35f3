/**
 * Text helpers of src/core/utils/parsing_utils.py: the fuzzy user search used by the
 * user parameter, the custom emoji reference `<:name:id>`, and the link regular
 * expression `(http[s]?://[^\s]+)`.
 */
module ParsingUtils {
  import opened Wrappers
  import opened Utils
  import Params

  /** A chat user: account name, display name in the server, and the bot flag. */
  datatype User = User(id: nat, name: string, displayName: string, bot: bool)

  /** `s.startswith(q)`. */
  predicate StartsWith(s: string, q: string)
  {
    |q| <= |s| && s[..|q|] == q
  }

  /** `q in s` for strings: `q` occurs somewhere in `s` (the empty string occurs everywhere). */
  predicate IsSubstring(q: string, s: string)
    decreases |s|
  {
    StartsWith(s, q) || (s != [] && IsSubstring(q, s[1..]))
  }

  lemma SubstringIsNoLonger(q: string, s: string)
    requires IsSubstring(q, s)
    ensures |q| <= |s|
    decreases |s|
  {
    if !StartsWith(s, q) {
      SubstringIsNoLonger(q, s[1..]);
    }
  }

  // ---------------------------------------------------------------------------
  // find_user

  /** `UserSearchResult`: which user, how much of the matched name the query covers
      (`len(query) / len(name)`), whether the name starts with the query, and whether the
      matched name is the account name rather than the display name. */
  datatype SearchResult = SearchResult(user: User, ratio: real, startsWith: bool, isAccountName: bool)

  /** The ranking `(("is_account_name", False), ("starts_with", True), ("match", True))`:
      display name first, then names that start with the query, then the higher ratio. */
  function SortRule(): seq<SortSpec<SearchResult>>
  {
    [SortSpec((r: SearchResult) => BoolKey(r.isAccountName), false),
     SortSpec((r: SearchResult) => BoolKey(r.startsWith), true),
     SortSpec((r: SearchResult) => r.ratio, true)]
  }

  /** What one user contributes to the search. */
  datatype UserMatch = NoMatch | Match(result: SearchResult) | ZeroDivision

  /** The comparison of `query` with one name of `u`; `None` when the name does not
      contain it. A matched empty name divides by zero. */
  function NameMatch(u: User, query: string, name: string, isAccountName: bool): Result<Option<SearchResult>, string>
  {
    if !IsSubstring(query, name) then Success(None)
    else if |name| == 0 then Failure("division by zero")
    else Success(Some(SearchResult(u, (|query| as real) / (|name| as real), StartsWith(name, query), isAccountName)))
  }

  /**
   * The match kept for one user, with `fold` standing for `unidecode(s.lower())`:
   * bots are skipped; the display name is compared first, then the account name; when
   * both contain the query, the ranking keeps the display name.
   */
  function MatchUser(u: User, query: string, fold: string -> string): UserMatch
  {
    if u.bot then NoMatch
    else
      match NameMatch(u, query, fold(u.displayName), false)
      case Failure(_) => ZeroDivision
      case Success(display) =>
        match NameMatch(u, query, fold(u.name), true)
        case Failure(_) => ZeroDivision
        case Success(account) =>
          if display.Some? then Match(display.value)
          else if account.Some? then Match(account.value)
          else NoMatch
  }

  /** The outcome of `find_user`: a user, `None`, or the `ZeroDivisionError` it raises. */
  datatype Lookup = Found(user: User) | NotFound | DivisionByZero

  /** The first index of a lowest-ranked element: it precedes every other element in the
      stable order of `SortRule`. */
  function BestIndex(s: seq<SearchResult>): (b: nat)
    requires s != []
    ensures b < |s|
    ensures forall j :: 0 <= j < |s| && j != b ==> Precedes(SortRule(), 0, s[b], b, s[j], j)
  {
    if |s| == 1 then 0
    else
      var init := s[..|s| - 1];
      var b0 := BestIndex(init);
      var last := |s| - 1;
      assert forall j :: 0 <= j < last ==> s[j] == init[j];
      if Compare(SortRule(), 0, s[last], s[b0]) < 0 then
        forall j | 0 <= j < last
          ensures Precedes(SortRule(), 0, s[last], last, s[j], j)
        {
          if j != b0 {
            CompareTransitive(SortRule(), 0, s[last], s[b0], s[j]);
          }
        }
        last
      else
        CompareAntisymmetric(SortRule(), 0, s[last], s[b0]);
        b0
  }

  /** The scan of `find_user` from user `i` on, with the non-exact matches kept so far. */
  function Scan(users: seq<User>, query: string, fold: string -> string, i: nat, matches: seq<SearchResult>): Lookup
    requires i <= |users|
    decreases |users| - i
  {
    if i == |users| then
      if matches == [] then NotFound else Found(matches[BestIndex(matches)].user)
    else
      match MatchUser(users[i], query, fold)
      case NoMatch => Scan(users, query, fold, i + 1, matches)
      case ZeroDivision => DivisionByZero
      case Match(r) =>
        if r.ratio == 1.0 then Found(r.user) else Scan(users, query, fold, i + 1, matches + [r])
  }

  /** `find_user(users, name_part)`, as a function of the member list and the query. */
  function FindUserSpec(users: seq<User>, namePart: string, fold: string -> string): Lookup
  {
    Scan(users, fold(namePart), fold, 0, [])
  }

  /** The first element of a stable sort is the input's best element. */
  lemma StableSortedFirst(input: seq<SearchResult>, output: seq<SearchResult>, perm: seq<nat>)
    requires StableSorted(input, output, perm, SortRule()) && input != []
    ensures output[0] == input[BestIndex(input)]
  {
    var b, b0 := BestIndex(input), perm[0];
    if b != b0 {
      PermutationCovers(perm, |input|, b);
      var i :| 0 <= i < |input| && perm[i] == b;
      assert i != 0;
      assert Precedes(SortRule(), 0, output[0], perm[0], output[i], perm[i]);
      assert Precedes(SortRule(), 0, input[b], b, input[b0], b0);
      CompareAntisymmetric(SortRule(), 0, input[b], input[b0]);
      assert false;
    }
  }

  /**
   * The comparison of one member inside `find_user`'s loop: bots are skipped; each folded
   * name that contains the query gives a match (an empty one divides by zero); of two
   * matches, the first after `multisort` is kept.
   */
  method CompareUser(user: User, query: string, fold: string -> string) returns (m: UserMatch)
    ensures m == MatchUser(user, query, fold)
  {
    if user.bot {
      return NoMatch;
    }
    var displayName, username := fold(user.displayName), fold(user.name);
    var comparisons: seq<SearchResult> := [];
    if IsSubstring(query, displayName) {
      if |displayName| == 0 {
        return ZeroDivision;
      }
      comparisons := comparisons + [SearchResult(user, (|query| as real) / (|displayName| as real), StartsWith(displayName, query), false)];
    }
    if IsSubstring(query, username) {
      if |username| == 0 {
        return ZeroDivision;
      }
      comparisons := comparisons + [SearchResult(user, (|query| as real) / (|username| as real), StartsWith(username, query), true)];
    }
    if comparisons == [] {
      return NoMatch;
    }
    var best := comparisons[0];
    if |comparisons| == 2 {
      best := SortedFirst(comparisons);
      assert BestIndex(comparisons) == 0 by {
        assert Compare(SortRule(), 0, comparisons[1], comparisons[0]) == 1;
      }
    }
    m := Match(best);
  }

  /** The first of `comparisons` once `multisort` has ordered them by `SortRule`. */
  method SortedFirst(comparisons: seq<SearchResult>) returns (best: SearchResult)
    requires comparisons != []
    ensures best == comparisons[BestIndex(comparisons)]
  {
    var sorted := new SearchResult[|comparisons|](k requires 0 <= k < |comparisons| => comparisons[k]);
    ghost var before := sorted[..];
    assert before == comparisons;
    var _, perm := Multisort(sorted, SortRule());
    StableSortedFirst(before, sorted[..], perm);
    best := sorted[0];
  }

  /**
   * `find_user`: scans the members in order, skipping bots; returns at once a user whose
   * kept match covers the whole name; otherwise ranks the kept matches with `multisort`
   * and returns the best one's user, or `NotFound` when nobody matched.
   */
  method FindUser(users: seq<User>, namePart: string, fold: string -> string) returns (r: Lookup)
    ensures r == FindUserSpec(users, namePart, fold)
  {
    var query := fold(namePart);
    var matches: seq<SearchResult> := [];
    var i := 0;
    while i < |users|
      invariant i <= |users|
      invariant Scan(users, query, fold, 0, []) == Scan(users, query, fold, i, matches)
    {
      var m := CompareUser(users[i], query, fold);
      if m.ZeroDivision? {
        return DivisionByZero;
      }
      if m.Match? {
        if m.result.ratio == 1.0 {
          return Found(m.result.user);
        }
        matches := matches + [m.result];
      }
      i := i + 1;
    }
    var ranked := new SearchResult[|matches|](k requires 0 <= k < |matches| => matches[k]);
    ghost var before := ranked[..];
    assert before == matches;
    var sorted, perm := Multisort(ranked, SortRule());
    if ranked.Length > 0 {
      StableSortedFirst(before, ranked[..], perm);
      r := Found(ranked[0].user);
    } else {
      r := NotFound;
    }
  }

  /** The matches `find_user` keeps from `users[i..]` when no user raises or matches exactly. */
  function Kept(users: seq<User>, query: string, fold: string -> string, i: nat): seq<SearchResult>
    requires i <= |users|
    decreases |users| - i
  {
    if i == |users| then []
    else
      match MatchUser(users[i], query, fold)
      case Match(r) => [r] + Kept(users, query, fold, i + 1)
      case _ => Kept(users, query, fold, i + 1)
  }

  /** The scan goes on past a user: it neither raised nor covered a whole name. */
  predicate PassesOn(m: UserMatch)
  {
    m.NoMatch? || (m.Match? && m.result.ratio != 1.0)
  }

  /** No user from `i` on raises or matches exactly. */
  ghost predicate NoShortcut(users: seq<User>, query: string, fold: string -> string, i: nat)
    requires i <= |users|
  {
    forall k :: i <= k < |users| ==> PassesOn(MatchUser(users[k], query, fold))
  }

  /** A user returned by the scan is not a bot and one of its folded names contains the query. */
  lemma {:induction false} ScanFoundContains(users: seq<User>, query: string, fold: string -> string, i: nat, matches: seq<SearchResult>)
    requires i <= |users|
    requires forall k :: 0 <= k < |matches| ==>
               !matches[k].user.bot &&
               (IsSubstring(query, fold(matches[k].user.displayName)) || IsSubstring(query, fold(matches[k].user.name)))
    ensures Scan(users, query, fold, i, matches).Found? ==>
              var u := Scan(users, query, fold, i, matches).user;
              !u.bot && (IsSubstring(query, fold(u.displayName)) || IsSubstring(query, fold(u.name)))
    decreases |users| - i
  {
    if i < |users| {
      match MatchUser(users[i], query, fold)
      case NoMatch => ScanFoundContains(users, query, fold, i + 1, matches);
      case ZeroDivision =>
      case Match(r) =>
        if r.ratio != 1.0 {
          ScanFoundContains(users, query, fold, i + 1, matches + [r]);
        }
    }
  }

  /** `find_user` never returns a bot, and what it returns matches the query. */
  lemma FindUserFoundMatches(users: seq<User>, namePart: string, fold: string -> string)
    ensures FindUserSpec(users, namePart, fold).Found? ==>
              var u := FindUserSpec(users, namePart, fold).user;
              !u.bot && (IsSubstring(fold(namePart), fold(u.displayName)) || IsSubstring(fold(namePart), fold(u.name)))
  {
    ScanFoundContains(users, fold(namePart), fold, 0, []);
  }

  /** `NotFound` exactly when no member matches; and then no user raised either. */
  lemma {:induction false} ScanNotFound(users: seq<User>, query: string, fold: string -> string, i: nat, matches: seq<SearchResult>)
    requires i <= |users|
    ensures Scan(users, query, fold, i, matches) == NotFound <==>
              matches == [] && forall k :: i <= k < |users| ==> MatchUser(users[k], query, fold) == NoMatch
    decreases |users| - i
  {
    if i < |users| {
      match MatchUser(users[i], query, fold)
      case NoMatch => ScanNotFound(users, query, fold, i + 1, matches);
      case ZeroDivision =>
      case Match(r) =>
        if r.ratio != 1.0 {
          ScanNotFound(users, query, fold, i + 1, matches + [r]);
        }
    }
  }

  lemma FindUserNotFound(users: seq<User>, namePart: string, fold: string -> string)
    ensures FindUserSpec(users, namePart, fold) == NotFound <==>
              forall k :: 0 <= k < |users| ==> MatchUser(users[k], fold(namePart), fold) == NoMatch
  {
    ScanNotFound(users, fold(namePart), fold, 0, []);
  }

  /** The first user whose kept match covers the whole name is returned, whatever follows it. */
  lemma {:induction false} ScanExact(users: seq<User>, query: string, fold: string -> string, i: nat, matches: seq<SearchResult>, e: nat)
    requires i <= e < |users|
    requires MatchUser(users[e], query, fold).Match? && MatchUser(users[e], query, fold).result.ratio == 1.0
    requires forall k :: i <= k < e ==> PassesOn(MatchUser(users[k], query, fold))
    ensures Scan(users, query, fold, i, matches) == Found(users[e])
    ensures Scan(users, query, fold, i, matches) == Scan(users[..e + 1], query, fold, i, matches)
    decreases e - i
  {
    var prefix := users[..e + 1];
    assert prefix[i] == users[i];
    if i < e {
      match MatchUser(users[i], query, fold)
      case NoMatch => ScanExact(users, query, fold, i + 1, matches, e);
      case Match(r) => ScanExact(users, query, fold, i + 1, matches + [r], e);
    }
    ScanExactPrefix(prefix, query, fold, i, matches, e);
  }

  lemma {:induction false} ScanExactPrefix(users: seq<User>, query: string, fold: string -> string, i: nat, matches: seq<SearchResult>, e: nat)
    requires i <= e < |users|
    requires MatchUser(users[e], query, fold).Match? && MatchUser(users[e], query, fold).result.ratio == 1.0
    requires forall k :: i <= k < e ==> PassesOn(MatchUser(users[k], query, fold))
    ensures Scan(users, query, fold, i, matches) == Found(users[e])
    decreases e - i
  {
    if i < e {
      match MatchUser(users[i], query, fold)
      case NoMatch => ScanExactPrefix(users, query, fold, i + 1, matches, e);
      case Match(r) => ScanExactPrefix(users, query, fold, i + 1, matches + [r], e);
    }
  }

  /** A user that passes on: the scan and the kept matches both move on to the next user,
      the scan keeping the user's match when there is one. */
  lemma ScanStep(users: seq<User>, query: string, fold: string -> string, i: nat, matches: seq<SearchResult>)
    requires i < |users| && PassesOn(MatchUser(users[i], query, fold))
    ensures var m := MatchUser(users[i], query, fold);
            var kept := if m.Match? then [m.result] else [];
            Kept(users, query, fold, i) == kept + Kept(users, query, fold, i + 1) &&
            Scan(users, query, fold, i, matches) == Scan(users, query, fold, i + 1, matches + kept)
  {
    if MatchUser(users[i], query, fold).NoMatch? {
      assert [] + Kept(users, query, fold, i + 1) == Kept(users, query, fold, i + 1);
      assert matches + [] == matches;
    }
  }

  /** Without an exact hit or an error, the scan reaches the end of the members holding
      every kept match. */
  lemma {:induction false} ScanRanks(users: seq<User>, query: string, fold: string -> string, i: nat, matches: seq<SearchResult>)
    requires i <= |users| && NoShortcut(users, query, fold, i)
    ensures Scan(users, query, fold, i, matches) == Scan(users, query, fold, |users|, matches + Kept(users, query, fold, i))
    decreases |users| - i
  {
    if i == |users| {
      assert matches + Kept(users, query, fold, i) == matches;
    } else {
      var m := MatchUser(users[i], query, fold);
      assert PassesOn(m);
      var kept := if m.Match? then [m.result] else [];
      ScanStep(users, query, fold, i, matches);
      ScanRanks(users, query, fold, i + 1, matches + kept);
      AppendAssoc(matches, kept, Kept(users, query, fold, i + 1), Kept(users, query, fold, i));
    }
  }

  lemma AppendAssoc<T>(a: seq<T>, b: seq<T>, c: seq<T>, d: seq<T>)
    requires d == b + c
    ensures a + b + c == a + d
  {
  }

  /**
   * The ranking of `find_user`: when no member raises or covers a whole name, the result
   * is the user of the kept match that precedes every other kept match in the order
   * display name, starts-with, higher ratio, and earlier member on ties.
   */
  lemma FindUserRanks(users: seq<User>, namePart: string, fold: string -> string)
    requires NoShortcut(users, fold(namePart), fold, 0)
    requires Kept(users, fold(namePart), fold, 0) != []
    ensures var all := Kept(users, fold(namePart), fold, 0);
            exists b :: 0 <= b < |all| && FindUserSpec(users, namePart, fold) == Found(all[b].user) &&
              forall j :: 0 <= j < |all| && j != b ==> Precedes(SortRule(), 0, all[b], b, all[j], j)
  {
    var all := Kept(users, fold(namePart), fold, 0);
    ScanRanks(users, fold(namePart), fold, 0, []);
    assert [] + all == all;
    var b := BestIndex(all);
    assert Scan(users, fold(namePart), fold, |users|, all) == Found(all[b].user);
    assert FindUserSpec(users, namePart, fold) == Found(all[b].user);
  }

  /** A quotient of a positive denominator is one exactly when both sides are equal. */
  lemma QuotientIsOne(q: real, n: real)
    requires n > 0.0
    ensures q / n == 1.0 <==> q == n
  {
    if q / n == 1.0 {
      assert q == (q / n) * n;
    }
  }

  /** A kept match covers the whole name exactly when the query is as long as the name. */
  lemma ExactRatio(u: User, query: string, fold: string -> string)
    requires MatchUser(u, query, fold).Match?
    ensures var r := MatchUser(u, query, fold).result;
            r.ratio == 1.0 <==> |query| == |if r.isAccountName then fold(u.name) else fold(u.displayName)|
  {
    var r := MatchUser(u, query, fold).result;
    var name := if r.isAccountName then fold(u.name) else fold(u.displayName);
    assert |name| > 0 && r.ratio == (|query| as real) / (|name| as real);
    QuotientIsOne(|query| as real, |name| as real);
  }

  /** When both names contain the query, the display name's match is kept. */
  lemma DisplayNameWins(u: User, query: string, fold: string -> string)
    requires !u.bot && |fold(u.displayName)| > 0 && |fold(u.name)| > 0
    requires IsSubstring(query, fold(u.displayName)) && IsSubstring(query, fold(u.name))
    ensures MatchUser(u, query, fold).Match? && !MatchUser(u, query, fold).result.isAccountName
  {
  }

  // ---------------------------------------------------------------------------
  // get_custom_emoji: the pattern `^(<:([^:]+):(\d+)>)`

  /** The first index at or after `from` holding `c`, or `|s|`. */
  function IndexOf(s: string, c: char, from: nat): (k: nat)
    requires from <= |s|
    ensures from <= k <= |s| && (k < |s| ==> s[k] == c)
    decreases |s| - from
  {
    if from == |s| || s[from] == c then from else IndexOf(s, c, from + 1)
  }

  /** The first occurrence at or after `from` is the one `IndexOf` finds. */
  lemma {:induction false} IndexOfAt(s: string, c: char, from: nat, k: nat)
    requires from <= k < |s| && s[k] == c
    requires forall l :: from <= l < k ==> s[l] != c
    ensures IndexOf(s, c, from) == k
    decreases k - from
  {
    if from < k {
      IndexOfAt(s, c, from + 1, k);
    }
  }

  /** `IndexOf` finds the first occurrence: no earlier position holds the character. */
  lemma {:induction false} IndexOfIsFirst(s: string, c: char, from: nat)
    requires from <= |s|
    ensures forall l :: from <= l < IndexOf(s, c, from) ==> s[l] != c
    decreases |s| - from
  {
    if from < |s| && s[from] != c {
      IndexOfIsFirst(s, c, from + 1);
    }
  }

  /** The length of the run of decimal digits starting at `from`. */
  function DigitRun(s: string, from: nat): (n: nat)
    requires from <= |s|
    ensures from + n <= |s| && (from + n < |s| ==> !Params.IsDigit(s[from + n]))
    decreases |s| - from
  {
    if from == |s| || !Params.IsDigit(s[from]) then 0 else 1 + DigitRun(s, from + 1)
  }

  /** Every character of the run is a digit. */
  lemma {:induction false} DigitRunDigits(s: string, from: nat)
    requires from <= |s|
    ensures forall l :: from <= l < from + DigitRun(s, from) ==> Params.IsDigit(s[l])
    decreases |s| - from
  {
    if from < |s| && Params.IsDigit(s[from]) {
      DigitRunDigits(s, from + 1);
    }
  }

  /** The custom emoji reference at the start of `text`: the whole `<:name:id>` string
      and the id it names. */
  function MatchCustomEmoji(text: string): Option<(string, nat)>
  {
    if |text| < 2 || text[..2] != "<:" then None
    else
      var colon := IndexOf(text, ':', 2);
      if colon == 2 || colon == |text| then None
      else
        var digits := DigitRun(text, colon + 1);
        var close := colon + 1 + digits;
        if digits == 0 || close == |text| || text[close] != '>' then None
        else Some((text[..close + 1], Params.DigitsValue(text[colon + 1..close])))
  }

  /** Where the characters of a reference `<:name:digits>` sit in a text that starts with
      it. */
  lemma EmojiTextChars(name: string, digits: string, rest: string)
    requires ':' !in name
    requires forall k :: 0 <= k < |digits| ==> Params.IsDigit(digits[k])
    ensures var text := "<:" + name + ":" + digits + ">" + rest;
            var colon := 2 + |name|;
            |text| > colon + 1 + |digits| &&
            (forall l :: 2 <= l < colon ==> text[l] != ':') &&
            text[colon] == ':' &&
            (forall l :: colon + 1 <= l < colon + 1 + |digits| ==> Params.IsDigit(text[l])) &&
            text[colon + 1 + |digits|] == '>'
  {
    var text := "<:" + name + ":" + digits + ">" + rest;
    var colon := 2 + |name|;
    forall l | 2 <= l < colon
      ensures text[l] != ':'
    {
      assert text[l] == name[l - 2];
    }
    forall l | colon + 1 <= l < colon + 1 + |digits|
      ensures Params.IsDigit(text[l])
    {
      assert text[l] == digits[l - colon - 1];
    }
  }

  /** The scans of the pattern stop at the colon after the name and at the `>` after the
      digits. */
  lemma EmojiTextScans(text: string, colon: nat, close: nat)
    requires 2 <= colon < close < |text|
    requires forall l :: 2 <= l < colon ==> text[l] != ':'
    requires text[colon] == ':'
    requires forall l :: colon + 1 <= l < close ==> Params.IsDigit(text[l])
    requires text[close] == '>'
    ensures IndexOf(text, ':', 2) == colon && DigitRun(text, colon + 1) == close - colon - 1
  {
    IndexOfAt(text, ':', 2, colon);
    DigitRunOf(text, colon + 1, close - colon - 1);
  }

  /** The pieces of a text that starts with a reference `<:name:digits>`. */
  lemma EmojiTextLayout(name: string, digits: string, rest: string)
    requires ':' !in name
    requires forall k :: 0 <= k < |digits| ==> Params.IsDigit(digits[k])
    ensures var s := "<:" + name + ":" + digits + ">";
            var text := s + rest;
            var colon := 2 + |name|;
            |text| > colon + 1 + |digits| && text[..2] == "<:" &&
            IndexOf(text, ':', 2) == colon && DigitRun(text, colon + 1) == |digits| &&
            text[colon + 1..colon + 1 + |digits|] == digits &&
            text[colon + 1 + |digits|] == '>' &&
            text[..colon + 1 + |digits| + 1] == s
  {
    var s := "<:" + name + ":" + digits + ">";
    var text := s + rest;
    var colon := 2 + |name|;
    assert text == "<:" + name + ":" + digits + ">" + rest;
    assert text[..|s|] == s;
    EmojiTextChars(name, digits, rest);
    EmojiTextScans(text, colon, colon + 1 + |digits|);
  }

  /** The pattern's outcome on a text whose name ends at `colon` and whose digits end at
      `close`. */
  lemma MatchCustomEmojiAt(text: string, colon: nat, close: nat)
    requires 2 < colon && colon + 1 < close < |text|
    requires text[..2] == "<:" && IndexOf(text, ':', 2) == colon
    requires DigitRun(text, colon + 1) == close - colon - 1 && text[close] == '>'
    ensures MatchCustomEmoji(text) == Some((text[..close + 1], Params.DigitsValue(text[colon + 1..close])))
  {
  }

  /** Every character of `d` is a decimal digit. */
  predicate AllDigits(d: string)
  {
    forall k :: 0 <= k < |d| ==> Params.IsDigit(d[k])
  }

  /** A reference with any non-empty digit string is recognised at the start of a text. */
  lemma CustomEmojiDigits(name: string, digits: string, rest: string)
    requires name != [] && ':' !in name
    requires digits != [] && AllDigits(digits)
    ensures var s := "<:" + name + ":" + digits + ">";
            MatchCustomEmoji(s + rest) == Some((s, Params.DigitsValue(digits)))
  {
    var s := "<:" + name + ":" + digits + ">";
    EmojiTextLayout(name, digits, rest);
    EmojiAtLayout(s + rest, s, |name|, digits);
  }

  /** A text laid out as a reference followed by anything matches that reference. */
  lemma EmojiAtLayout(text: string, s: string, nameLength: nat, digits: string)
    requires nameLength > 0 && digits != []
    requires var colon := 2 + nameLength;
             |text| > colon + 1 + |digits| && text[..2] == "<:" &&
             IndexOf(text, ':', 2) == colon &&
             DigitRun(text, colon + 1) == |digits| &&
             text[colon + 1..colon + 1 + |digits|] == digits &&
             text[colon + 1 + |digits|] == '>' &&
             text[..colon + 1 + |digits| + 1] == s
    ensures MatchCustomEmoji(text) == Some((s, Params.DigitsValue(digits)))
  {
    var colon := 2 + nameLength;
    MatchCustomEmojiAt(text, colon, colon + 1 + |digits|);
  }

  /** A well-formed reference is recognised, whatever follows it, and gives back its id. */
  lemma CustomEmojiRoundTrip(name: string, id: nat, rest: string)
    requires name != [] && ':' !in name
    ensures var s := "<:" + name + ":" + Params.NatToString(id) + ">";
            MatchCustomEmoji(s + rest) == Some((s, id))
  {
    CustomEmojiDigits(name, Params.NatToString(id), rest);
    Params.NatToStringRoundTrip(id);
  }

  lemma {:induction false} DigitRunOf(s: string, from: nat, n: nat)
    requires from + n < |s| && !Params.IsDigit(s[from + n])
    requires forall l :: from <= l < from + n ==> Params.IsDigit(s[l])
    ensures DigitRun(s, from) == n
    decreases n
  {
    if n > 0 {
      DigitRunOf(s, from + 1, n - 1);
    }
  }

  /** `get_custom_emoji`: the reference string when its id is one of the client's emojis. */
  method GetCustomEmoji(text: string, clientEmojis: seq<nat>) returns (r: Option<string>)
    ensures r.Some? <==> MatchCustomEmoji(text).Some? && MatchCustomEmoji(text).value.1 in clientEmojis
    ensures r.Some? ==> r.value == MatchCustomEmoji(text).value.0
  {
    var found := MatchCustomEmoji(text);
    if found.Some? {
      var i := 0;
      while i < |clientEmojis|
        invariant i <= |clientEmojis| && found.value.1 !in clientEmojis[..i]
      {
        if clientEmojis[i] == found.value.1 {
          return Some(found.value.0);
        }
        assert clientEmojis[..i + 1] == clientEmojis[..i] + [clientEmojis[i]];
        i := i + 1;
      }
      assert clientEmojis[..i] == clientEmojis;
    }
    return None;
  }

  /** `get_emoji`: a Unicode emoji found by the emoji library comes first, then a custom one. */
  function GetEmoji(text: string, library: string -> Option<string>, clientEmojis: seq<nat>): Option<string>
  {
    if library(text).Some? then library(text)
    else
      match MatchCustomEmoji(text)
      case Some((s, id)) => if id in clientEmojis then Some(s) else None
      case None => None
  }

  // ---------------------------------------------------------------------------
  // Links: the pattern `(http[s]?://[^\s]+)`

  /** Python's `\s` on text: the characters for which `str.isspace()` holds. */
  predicate IsSpace(c: char)
  {
    ('\U{9}' <= c <= '\U{D}') || ('\U{1C}' <= c <= '\U{20}') || c == '\U{85}' || c == '\U{A0}' ||
    c == '\U{1680}' || ('\U{2000}' <= c <= '\U{200A}') || c == '\U{2028}' || c == '\U{2029}' ||
    c == '\U{202F}' || c == '\U{205F}' || c == '\U{3000}'
  }

  /** The length of the run of non-space characters starting at `from`. */
  function NonSpaceRun(s: string, from: nat): (n: nat)
    requires from <= |s|
    ensures from + n <= |s| && (from + n < |s| ==> IsSpace(s[from + n]))
    decreases |s| - from
  {
    if from == |s| || IsSpace(s[from]) then 0 else 1 + NonSpaceRun(s, from + 1)
  }

  /** No character of the run is a space. */
  lemma {:induction false} NonSpaceRunChars(s: string, from: nat)
    requires from <= |s|
    ensures forall l :: from <= l < from + NonSpaceRun(s, from) ==> !IsSpace(s[l])
    decreases |s| - from
  {
    if from < |s| && !IsSpace(s[from]) {
      NonSpaceRunChars(s, from + 1);
    }
  }

  /** The scheme a link may start with at `i`: "https://" (tried first), "http://", or none. */
  function SchemeAt(s: string, i: nat): (n: nat)
    requires i <= |s|
    ensures n == 0 || n == 7 || n == 8
    ensures i + n <= |s|
  {
    if i + 8 <= |s| && s[i..i + 8] == "https://" then 8
    else if i + 7 <= |s| && s[i..i + 7] == "http://" then 7
    else 0
  }

  /** The length of the link the pattern matches at `i` (greedy), or 0 when none does. */
  function LinkAt(s: string, i: nat): (n: nat)
    requires i <= |s|
    ensures i + n <= |s|
  {
    var scheme := SchemeAt(s, i);
    if scheme == 0 then 0
    else
      var run := NonSpaceRun(s, i + scheme);
      if run == 0 then 0 else scheme + run
  }

  /** The text split by the pattern into the gaps between matches and the matches found,
      scanning left to right without overlap; `start` is where the current gap began. */
  function SplitFrom(s: string, start: nat, i: nat): (r: (seq<string>, seq<string>))
    requires start <= i <= |s|
    ensures |r.0| == |r.1| + 1
    decreases |s| - i
  {
    if i == |s| then ([s[start..]], [])
    else
      var n := LinkAt(s, i);
      if n > 0 then
        var rest := SplitFrom(s, i + n, i + n);
        ([s[start..i]] + rest.0, [s[i..i + n]] + rest.1)
      else SplitFrom(s, start, i + 1)
  }

  /** `gaps[0] + links[0] + gaps[1] + ... + gaps[n]`. */
  function Weave(gaps: seq<string>, links: seq<string>): string
    requires |gaps| == |links| + 1
    decreases |links|
  {
    if links == [] then gaps[0] else gaps[0] + links[0] + Weave(gaps[1..], links[1..])
  }

  function Concat(parts: seq<string>): string
  {
    if parts == [] then [] else parts[0] + Concat(parts[1..])
  }

  /** `LinkExtract`: the message without its links, and the links in order. */
  datatype LinkExtract = LinkExtract(message: string, links: seq<string>)

  /** `extract_links`: `findall` gives the links, `sub("", text)` the message. */
  function ExtractLinks(text: string): LinkExtract
  {
    var split := SplitFrom(text, 0, 0);
    LinkExtract(Concat(split.0), split.1)
  }

  /** Each link on a line of its own: `sub(r"\n\g<1>\n", text)`. */
  function FormatLinks(text: string): string
  {
    var split := SplitFrom(text, 0, 0);
    Weave(split.0, seq(|split.1|, k requires 0 <= k < |split.1| => "\n" + split.1[k] + "\n"))
  }

  /** `is_unique_link`: the pattern matches the whole text. */
  predicate IsUniqueLink(text: string)
  {
    text != [] && LinkAt(text, 0) == |text|
  }

  /** No character of `s` is a space. */
  predicate NoSpace(s: string)
  {
    forall k :: 0 <= k < |s| ==> !IsSpace(s[k])
  }

  /** A unique link is "http://" or "https://" followed by at least one non-space character. */
  lemma UniqueLinkShape(text: string)
    ensures IsUniqueLink(text) <==>
              (|text| > 7 && text[..7] == "http://" && NoSpace(text[7..])) ||
              (|text| > 8 && text[..8] == "https://" && NoSpace(text[8..]))
  {
    if |text| > 7 && text[..7] == "http://" && NoSpace(text[7..]) {
      assert text[0..7] == text[..7];
      assert text[4] == ':';
      NonSpaceRunAll(text, 7);
    }
    if |text| > 8 && text[..8] == "https://" && NoSpace(text[8..]) {
      assert text[0..8] == text[..8];
      NonSpaceRunAll(text, 8);
    }
    if IsUniqueLink(text) {
      var scheme := SchemeAt(text, 0);
      assert text[0..scheme] == text[..scheme];
      NonSpaceRunChars(text, scheme);
      forall k | 0 <= k < |text| - scheme
        ensures !IsSpace(text[scheme..][k])
      {
        assert text[scheme..][k] == text[scheme + k];
      }
    }
  }

  lemma {:induction false} NonSpaceRunAll(s: string, from: nat)
    requires from <= |s| && forall k :: from <= k < |s| ==> !IsSpace(s[k])
    ensures NonSpaceRun(s, from) == |s| - from
    decreases |s| - from
  {
    if from < |s| {
      NonSpaceRunAll(s, from + 1);
    }
  }

  /** Weaving the gaps and the links back together gives the scanned text. */
  lemma {:induction false} SplitRebuilds(s: string, start: nat, i: nat)
    requires start <= i <= |s|
    ensures Weave(SplitFrom(s, start, i).0, SplitFrom(s, start, i).1) == s[start..]
    decreases |s| - i
  {
    if i < |s| {
      var n := LinkAt(s, i);
      if n > 0 {
        SplitRebuilds(s, i + n, i + n);
        SplitFromLink(s, start, i, n);
      } else {
        SplitRebuilds(s, start, i + 1);
        SplitFromSkip(s, start, i);
      }
    }
  }

  /** Where no link starts, the split goes on at the next character. */
  lemma SplitFromSkip(s: string, start: nat, i: nat)
    requires start <= i < |s| && LinkAt(s, i) == 0
    ensures SplitFrom(s, start, i) == SplitFrom(s, start, i + 1)
  {
  }

  /** Where a link starts, the split is the gap before it and the link, then the split of the
      rest. */
  lemma SplitFromLinks(s: string, start: nat, i: nat)
    requires start <= i < |s| && LinkAt(s, i) > 0
    ensures var rest := SplitFrom(s, i + LinkAt(s, i), i + LinkAt(s, i));
            SplitFrom(s, start, i) == ([s[start..i]] + rest.0, [s[i..i + LinkAt(s, i)]] + rest.1)
  {
  }

  /** One link of the split: the gap before it and the link come first, then the split of
      the rest. */
  lemma SplitFromLink(s: string, start: nat, i: nat, n: nat)
    requires start <= i < |s| && n == LinkAt(s, i) && n > 0
    requires Weave(SplitFrom(s, i + n, i + n).0, SplitFrom(s, i + n, i + n).1) == s[i + n..]
    ensures Weave(SplitFrom(s, start, i).0, SplitFrom(s, start, i).1) == s[start..]
  {
    var rest := SplitFrom(s, i + n, i + n);
    SplitFromLinks(s, start, i);
    WeaveJoin(s[start..i], s[i..i + n], rest.0, rest.1, s[i + n..]);
    SliceJoin(s, start, i);
    SliceJoin(s, i, i + n);
  }

  /** A gap and a link in front of a woven rest weave to the gap, the link and the rest. */
  lemma WeaveJoin(gap: string, link: string, gaps: seq<string>, links: seq<string>, rest: string)
    requires |gaps| == |links| + 1 && Weave(gaps, links) == rest
    ensures Weave([gap] + gaps, [link] + links) == gap + (link + rest)
  {
    assert ([gap] + gaps)[1..] == gaps && ([link] + links)[1..] == links;
  }

  /** A suffix of a text is its next slice followed by the rest. */
  lemma SliceJoin(s: string, a: nat, b: nat)
    requires a <= b <= |s|
    ensures s[a..] == s[a..b] + s[b..]
  {
  }

  /** Every match of the split is a link on its own. */
  lemma {:induction false} SplitLinksAreLinks(s: string, start: nat, i: nat)
    requires start <= i <= |s|
    ensures forall k :: 0 <= k < |SplitFrom(s, start, i).1| ==> IsUniqueLink(SplitFrom(s, start, i).1[k])
    decreases |s| - i
  {
    if i < |s| {
      var n := LinkAt(s, i);
      if n > 0 {
        SplitLinksAreLinks(s, i + n, i + n);
        LinkAtIsUnique(s, i);
      } else {
        SplitLinksAreLinks(s, start, i + 1);
      }
    }
  }

  lemma LinkAtIsUnique(s: string, i: nat)
    requires i <= |s| && LinkAt(s, i) > 0
    ensures IsUniqueLink(s[i..i + LinkAt(s, i)])
  {
    var n := LinkAt(s, i);
    var t := s[i..i + n];
    var scheme := SchemeAt(s, i);
    assert t[..scheme] == s[i..i + scheme];
    NonSpaceRunChars(s, i + scheme);
    forall k | scheme <= k < |t|
      ensures !IsSpace(t[k])
    {
      assert t[k] == s[i + k];
    }
    if scheme == 8 {
      assert t[0..8] == "https://";
    } else {
      assert t[0..7] == "http://";
      assert t[4] == ':';
    }
    NonSpaceRunAll(t, scheme);
  }

  /** Where the links of `SplitFrom(s, start, i)` start and how long each is: the same
      scan, keeping positions. */
  function LinkSpans(s: string, i: nat): seq<(nat, nat)>
    requires i <= |s|
    decreases |s| - i
  {
    if i == |s| then []
    else
      var n := LinkAt(s, i);
      if n > 0 then [(i, n)] + LinkSpans(s, i + n) else LinkSpans(s, i + 1)
  }

  /** A link the pattern matches at `i` runs up to whitespace or to the end of the text. */
  lemma LinkEndsRun(s: string, i: nat)
    requires i < |s| && LinkAt(s, i) > 0
    ensures i + LinkAt(s, i) == |s| || IsSpace(s[i + LinkAt(s, i)])
  {
  }

  /** Each link is the whole greedy match at its span's start, and it ends at whitespace or
      at the end of the text. */
  predicate GreedyLinks(s: string, spans: seq<(nat, nat)>, links: seq<string>)
    decreases |spans|
  {
    |spans| == |links| &&
    (spans != [] ==>
       var (start, n) := spans[0];
       start < |s| && n == LinkAt(s, start) && links[0] == s[start..start + n] &&
       (start + n == |s| || IsSpace(s[start + n])) &&
       GreedyLinks(s, spans[1..], links[1..]))
  }

  /** The spans start from `lo` on, none is empty, and each ends before the next starts. */
  predicate Disjoint(spans: seq<(nat, nat)>, lo: nat)
    decreases |spans|
  {
    spans != [] ==> lo <= spans[0].0 && spans[0].1 > 0 && Disjoint(spans[1..], spans[0].0 + spans[0].1)
  }

  /** Position `p` lies inside one of the spans. */
  predicate Covered(spans: seq<(nat, nat)>, p: nat)
    decreases |spans|
  {
    spans != [] && ((spans[0].0 <= p < spans[0].0 + spans[0].1) || Covered(spans[1..], p))
  }

  /** Every position from `lo` on where the pattern matches lies inside a span: no match is
      left in a gap. */
  predicate Complete(s: string, spans: seq<(nat, nat)>, lo: nat)
  {
    forall p :: lo <= p < |s| && LinkAt(s, p) > 0 ==> Covered(spans, p)
  }

  /** Where a link starts, the spans go on after it. */
  lemma LinkSpansLink(s: string, i: nat)
    requires i < |s| && LinkAt(s, i) > 0
    ensures LinkSpans(s, i) == [(i, LinkAt(s, i))] + LinkSpans(s, i + LinkAt(s, i))
  {
  }

  /** Where no link starts, the spans go on at the next character. */
  lemma LinkSpansSkip(s: string, i: nat)
    requires i < |s| && LinkAt(s, i) == 0
    ensures LinkSpans(s, i) == LinkSpans(s, i + 1)
  {
  }

  lemma GreedyCons(s: string, i: nat, spans: seq<(nat, nat)>, links: seq<string>)
    requires i < |s| && LinkAt(s, i) > 0 && GreedyLinks(s, spans, links)
    ensures GreedyLinks(s, [(i, LinkAt(s, i))] + spans, [s[i..i + LinkAt(s, i)]] + links)
  {
    LinkEndsRun(s, i);
    assert ([(i, LinkAt(s, i))] + spans)[1..] == spans && ([s[i..i + LinkAt(s, i)]] + links)[1..] == links;
  }

  lemma DisjointCons(i: nat, n: nat, spans: seq<(nat, nat)>)
    requires n > 0 && Disjoint(spans, i + n)
    ensures Disjoint([(i, n)] + spans, i)
  {
    assert ([(i, n)] + spans)[1..] == spans;
  }

  lemma DisjointWeaken(spans: seq<(nat, nat)>, lo: nat, lo': nat)
    requires lo <= lo' && Disjoint(spans, lo')
    ensures Disjoint(spans, lo)
  {
  }

  lemma CompleteCons(s: string, i: nat, spans: seq<(nat, nat)>)
    requires i < |s| && LinkAt(s, i) > 0 && Complete(s, spans, i + LinkAt(s, i))
    ensures Complete(s, [(i, LinkAt(s, i))] + spans, i)
  {
    var spans' := [(i, LinkAt(s, i))] + spans;
    assert spans'[1..] == spans;
    forall p | i <= p < |s| && LinkAt(s, p) > 0
      ensures Covered(spans', p)
    {
      if p >= i + LinkAt(s, i) {
        assert Covered(spans, p);
      }
    }
  }

  lemma CompleteSkip(s: string, i: nat, spans: seq<(nat, nat)>)
    requires i < |s| && LinkAt(s, i) == 0 && Complete(s, spans, i + 1)
    ensures Complete(s, spans, i)
  {
  }

  /** The links the split finds from `i` on are the greedy matches at the scan's spans. */
  predicate GreedyFrom(s: string, start: nat, i: nat)
    requires start <= i <= |s|
  {
    GreedyLinks(s, LinkSpans(s, i), SplitFrom(s, start, i).1)
  }

  /** Where the split resumes after position `i`: past the link there, or at the next position. */
  function Step(s: string, start: nat, i: nat): (r: (nat, nat))
    requires start <= i < |s|
    ensures r.0 <= r.1 && i < r.1 <= |s| && (LinkAt(s, i) == 0 <==> r.0 == start)
  {
    var n := LinkAt(s, i);
    if n > 0 then (i + n, i + n) else (start, i + 1)
  }

  lemma {:induction false} SplitFromGreedy(s: string, start: nat, i: nat)
    requires start <= i <= |s|
    ensures GreedyFrom(s, start, i)
    decreases |s| - i
  {
    if i < |s| {
      var next := Step(s, start, i);
      SplitFromGreedy(s, next.0, next.1);
      GreedyStep(s, start, i);
    }
  }

  lemma GreedyStep(s: string, start: nat, i: nat)
    requires start <= i < |s| && GreedyFrom(s, Step(s, start, i).0, Step(s, start, i).1)
    ensures GreedyFrom(s, start, i)
  {
    if LinkAt(s, i) > 0 {
      GreedyLink(s, start, i);
    } else {
      GreedySkip(s, start, i);
    }
  }

  lemma GreedyLink(s: string, start: nat, i: nat)
    requires start <= i < |s| && LinkAt(s, i) > 0
    requires GreedyFrom(s, i + LinkAt(s, i), i + LinkAt(s, i))
    ensures GreedyFrom(s, start, i)
  {
    var n := LinkAt(s, i);
    LinkSpansLink(s, i);
    SplitFromLinks(s, start, i);
    GreedyCons(s, i, LinkSpans(s, i + n), SplitFrom(s, i + n, i + n).1);
  }

  lemma GreedySkip(s: string, start: nat, i: nat)
    requires start <= i < |s| && LinkAt(s, i) == 0
    requires GreedyFrom(s, start, i + 1)
    ensures GreedyFrom(s, start, i)
  {
    LinkSpansSkip(s, i);
    SplitFromSkip(s, start, i);
  }

  /** The scan's spans increase and do not overlap. */
  lemma {:induction false} LinkSpansDisjoint(s: string, i: nat)
    requires i <= |s|
    ensures Disjoint(LinkSpans(s, i), i)
    decreases |s| - i
  {
    if i < |s| {
      var n := LinkAt(s, i);
      if n > 0 {
        LinkSpansDisjoint(s, i + n);
        DisjointLink(s, i);
      } else {
        LinkSpansDisjoint(s, i + 1);
        DisjointSkip(s, i);
      }
    }
  }

  lemma DisjointLink(s: string, i: nat)
    requires i < |s| && LinkAt(s, i) > 0 && Disjoint(LinkSpans(s, i + LinkAt(s, i)), i + LinkAt(s, i))
    ensures Disjoint(LinkSpans(s, i), i)
  {
    LinkSpansLink(s, i);
    DisjointCons(i, LinkAt(s, i), LinkSpans(s, i + LinkAt(s, i)));
  }

  lemma DisjointSkip(s: string, i: nat)
    requires i < |s| && LinkAt(s, i) == 0 && Disjoint(LinkSpans(s, i + 1), i + 1)
    ensures Disjoint(LinkSpans(s, i), i)
  {
    LinkSpansSkip(s, i);
    DisjointWeaken(LinkSpans(s, i + 1), i, i + 1);
  }

  /** The scan misses no match: every position where the pattern matches is in a span. */
  lemma {:induction false} LinkSpansComplete(s: string, i: nat)
    requires i <= |s|
    ensures Complete(s, LinkSpans(s, i), i)
    decreases |s| - i
  {
    if i < |s| {
      var n := LinkAt(s, i);
      if n > 0 {
        LinkSpansComplete(s, i + n);
        CompleteLink(s, i);
      } else {
        LinkSpansComplete(s, i + 1);
        CompleteSkipStep(s, i);
      }
    }
  }

  lemma CompleteLink(s: string, i: nat)
    requires i < |s| && LinkAt(s, i) > 0 && Complete(s, LinkSpans(s, i + LinkAt(s, i)), i + LinkAt(s, i))
    ensures Complete(s, LinkSpans(s, i), i)
  {
    LinkSpansLink(s, i);
    CompleteCons(s, i, LinkSpans(s, i + LinkAt(s, i)));
  }

  lemma CompleteSkipStep(s: string, i: nat)
    requires i < |s| && LinkAt(s, i) == 0 && Complete(s, LinkSpans(s, i + 1), i + 1)
    ensures Complete(s, LinkSpans(s, i), i)
  {
    LinkSpansSkip(s, i);
    CompleteSkip(s, i, LinkSpans(s, i + 1));
  }

  /**
   * `extract_links` finds the links left to right, and its message is the text with
   * exactly those links cut out: there are gaps with `text == gaps[0] + links[0] +
   * gaps[1] + ...` and `message == gaps[0] + gaps[1] + ...`. `format_links` puts the same
   * links, in the same gaps, each between two line breaks.
   */
  lemma ExtractLinksSplitsText(text: string)
    ensures var e := ExtractLinks(text);
            exists gaps: seq<string> ::
              |gaps| == |e.links| + 1 && text == Weave(gaps, e.links) && e.message == Concat(gaps) &&
              FormatLinks(text) == Weave(gaps, seq(|e.links|, k requires 0 <= k < |e.links| => "\n" + e.links[k] + "\n"))
    ensures forall k :: 0 <= k < |ExtractLinks(text).links| ==> IsUniqueLink(ExtractLinks(text).links[k])
  {
    var split := SplitFrom(text, 0, 0);
    SplitRebuilds(text, 0, 0);
    SplitLinksAreLinks(text, 0, 0);
    assert text[0..] == text;
  }

  /**
   * `extract_links` returns every match, left to right: the `k`-th link is the whole greedy
   * match at the `k`-th span's start, the links do not overlap, and every position where the
   * pattern matches lies inside one of them, so no match is left in the message.
   */
  lemma ExtractLinksFindsAll(text: string)
    ensures var spans := LinkSpans(text, 0);
            GreedyLinks(text, spans, ExtractLinks(text).links) && Disjoint(spans, 0) && Complete(text, spans, 0)
  {
    SplitFromGreedy(text, 0, 0);
    assert GreedyFrom(text, 0, 0);
    LinkSpansDisjoint(text, 0);
    LinkSpansComplete(text, 0);
  }

  /** A text that is one link extracts to that link and an empty message. */
  lemma ExtractUniqueLink(text: string)
    requires IsUniqueLink(text)
    ensures ExtractLinks(text) == LinkExtract("", [text])
  {
    assert text[|text|..] == [];
    assert SplitFrom(text, |text|, |text|) == ([[]], []);
    assert text[0..|text|] == text && text[0..0] == [];
    var rest := SplitFrom(text, |text|, |text|);
    assert LinkAt(text, 0) == |text|;
    assert SplitFrom(text, 0, 0) == ([text[0..0]] + rest.0, [text[0..|text|]] + rest.1);
    assert [text[0..0]] + rest.0 == [[], []];
    assert [text[0..|text|]] + rest.1 == [text];
    assert Concat([[], []]) == [];
  }
}
