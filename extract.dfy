/**
 * The regular-expression extractors the native handler applies to the decoded
 * user-data string: `dataStr.match(re)` with a non-global pattern, followed by
 * `match ? match[0] : ''`.
 *
 * JavaScript returns the match that starts leftmost; at that start the
 * backtracking matcher prefers the greedy choice. For the five patterns used
 * here that choice is also the longest match at that start, which is what
 * MatchAtIsLongest proves of the backtracking matcher MatchAt. Extract is then
 * proved to return the leftmost-longest match, and the empty string exactly
 * when nothing in the string matches.
 */
module Extract {

  import opened Wrappers

  /** `\d{6,}`, `[一-龥]+`, `https:\/\/[^\s"]+\.png`, the e-mail pattern and `1[3-9]\d{9}`. */
  datatype Pattern = UserId | UserName | AvatarUrl | Email | Phone

  /** The character classes the patterns use. */
  datatype CharClass = Digit | Han | UrlChar | LocalChar | DomainChar | Letter

  predicate IsDigit(c: char)
  {
    '0' <= c <= '9'
  }

  predicate IsLetter(c: char)
  {
    'a' <= c <= 'z' || 'A' <= c <= 'Z'
  }

  /** The CJK range U+4E00 to U+9FA5. */
  predicate IsHan(c: char)
  {
    '\U{4E00}' <= c <= '\U{9FA5}'
  }

  /**
   * JavaScript `\s`: the white-space characters (tab, vertical tab, form feed,
   * U+FEFF and the Unicode space separators) and the line terminators.
   */
  predicate IsJsSpace(c: char)
  {
    || '\t' <= c <= '\r'
    || c == ' '
    || c == '\U{A0}'
    || c == '\U{1680}'
    || '\U{2000}' <= c <= '\U{200A}'
    || c == '\U{2028}' || c == '\U{2029}'
    || c == '\U{202F}' || c == '\U{205F}'
    || c == '\U{3000}' || c == '\U{FEFF}'
  }

  predicate In(k: CharClass, c: char)
  {
    match k
    case Digit => IsDigit(c)
    case Han => IsHan(c)
    case UrlChar => !IsJsSpace(c) && c != '"'
    case LocalChar => IsLetter(c) || IsDigit(c) || c in "._%+-"
    case DomainChar => IsLetter(c) || IsDigit(c) || c == '.' || c == '-'
    case Letter => IsLetter(c)
  }

  /** Every character of `s[lo..hi]` is in class `k`. */
  predicate AllIn(s: string, lo: nat, hi: nat, k: CharClass)
    requires hi <= |s|
  {
    forall m :: lo <= m < hi ==> In(k, s[m])
  }

  /** The end of the longest run of class-`k` characters that starts at `i`. */
  function RunEnd(s: string, i: nat, k: CharClass): (e: nat)
    requires i <= |s|
    ensures i <= e <= |s|
    ensures AllIn(s, i, e, k)
    ensures e < |s| ==> !In(k, s[e])
    decreases |s| - i
  {
    if i < |s| && In(k, s[i]) then RunEnd(s, i + 1, k) else i
  }

  /** No run of class-`k` characters from `i` goes past RunEnd. */
  lemma RunBound(s: string, i: nat, k: CharClass, j: nat)
    requires i <= j <= |s| && AllIn(s, i, j, k)
    ensures j <= RunEnd(s, i, k)
  {
  }

  const HTTPS: string := "https://"
  const PNG: string := ".png"

  /** `.png` stands at `k`. */
  predicate PngAt(s: string, k: nat)
  {
    k + 4 <= |s| && s[k..k + 4] == PNG
  }

  /**
   * `s[i..j]` is the e-mail `s[i..a] @ s[a+1..k] . s[k+1..j]`: a non-empty
   * local part, a non-empty domain and at least two letters after the last dot.
   */
  predicate EmailShape(s: string, i: nat, a: nat, k: nat, j: nat)
  {
    && i < a && a + 1 < k && k + 3 <= j <= |s|
    && AllIn(s, i, a, LocalChar) && s[a] == '@'
    && AllIn(s, a + 1, k, DomainChar) && s[k] == '.'
    && AllIn(s, k + 1, j, Letter)
  }

  /** `s[i..j]` is a string the pattern `p` matches in full. */
  ghost predicate Matches(p: Pattern, s: string, i: nat, j: nat)
  {
    && i < j <= |s|
    && match p
       case UserId => i + 6 <= j && AllIn(s, i, j, Digit)
       case UserName => AllIn(s, i, j, Han)
       case AvatarUrl =>
         && i + 13 <= j && s[i..i + 8] == HTTPS
         && AllIn(s, i + 8, j - 4, UrlChar) && PngAt(s, j - 4)
       case Email => exists a: nat, k: nat :: EmailShape(s, i, a, k, j)
       case Phone =>
         && j == i + 11 && s[i] == '1' && '3' <= s[i + 1] <= '9'
         && AllIn(s, i + 2, j, Digit)
  }

  /** A top-level domain lies after a dot at `k`: two or more letters follow it. */
  predicate TldAt(s: string, k: nat)
  {
    k < |s| && s[k] == '.' && RunEnd(s, k + 1, Letter) >= k + 3
  }

  /** The backtracking search of `[^\s"]+` for `.png`: the largest `m` in `lo..k` with `.png` at it. */
  function LastPng(s: string, lo: nat, k: nat): (r: Option<nat>)
    requires lo <= k
    ensures r.Some? ==> lo <= r.value <= k && PngAt(s, r.value)
    ensures r.Some? ==> forall m :: r.value < m <= k ==> !PngAt(s, m)
    ensures r.None? ==> forall m :: lo <= m <= k ==> !PngAt(s, m)
    decreases k
  {
    if PngAt(s, k) then Some(k)
    else if k == lo then None
    else LastPng(s, lo, k - 1)
  }

  /** The backtracking search of the e-mail domain: the largest `m` in `lo..k` with a top-level domain after it. */
  function LastTld(s: string, lo: nat, k: nat): (r: Option<nat>)
    requires lo <= k
    ensures r.Some? ==> lo <= r.value <= k && TldAt(s, r.value)
    ensures r.Some? ==> forall m :: r.value < m <= k ==> !TldAt(s, m)
    ensures r.None? ==> forall m :: lo <= m <= k ==> !TldAt(s, m)
    decreases k
  {
    if TldAt(s, k) then Some(k)
    else if k == lo then None
    else LastTld(s, lo, k - 1)
  }

  /**
   * The end of the match the backtracking matcher finds for `p` at `i`, if
   * any: greedy runs, given back one character at a time where the pattern
   * needs something after them.
   */
  function MatchAt(p: Pattern, s: string, i: nat): (r: Option<nat>)
    requires i <= |s|
    ensures r.Some? ==> i < r.value <= |s|
  {
    match p
    case UserId =>
      var e := RunEnd(s, i, Digit);
      if e >= i + 6 then Some(e) else None
    case UserName =>
      var e := RunEnd(s, i, Han);
      if e > i then Some(e) else None
    case Phone =>
      if i + 11 <= |s| && s[i] == '1' && '3' <= s[i + 1] <= '9' && RunEnd(s, i + 2, Digit) >= i + 11
      then Some(i + 11) else None
    case AvatarUrl =>
      if i + 8 <= |s| && s[i..i + 8] == HTTPS then
        var e := RunEnd(s, i + 8, UrlChar);
        if e < i + 9 then None
        else match LastPng(s, i + 9, e)
          case Some(k) => Some(k + 4)
          case None => None
      else None
    case Email =>
      var a := RunEnd(s, i, LocalChar);
      if i < a < |s| && s[a] == '@' then
        var d := RunEnd(s, a + 1, DomainChar);
        if d < a + 2 then None
        else match LastTld(s, a + 2, d)
          case Some(k) => Some(RunEnd(s, k + 1, Letter))
          case None => None
      else None
  }

  lemma UserIdLongest(s: string, i: nat, j: nat)
    requires Matches(UserId, s, i, j)
    ensures MatchAt(UserId, s, i).Some? && j <= MatchAt(UserId, s, i).value
  {
    RunBound(s, i, Digit, j);
  }

  lemma UserNameLongest(s: string, i: nat, j: nat)
    requires Matches(UserName, s, i, j)
    ensures MatchAt(UserName, s, i).Some? && j <= MatchAt(UserName, s, i).value
  {
    RunBound(s, i, Han, j);
  }

  lemma PhoneLongest(s: string, i: nat, j: nat)
    requires Matches(Phone, s, i, j)
    ensures MatchAt(Phone, s, i) == Some(j)
  {
    RunBound(s, i + 2, Digit, j);
  }

  lemma AvatarUrlLongest(s: string, i: nat, j: nat)
    requires Matches(AvatarUrl, s, i, j)
    ensures MatchAt(AvatarUrl, s, i).Some? && j <= MatchAt(AvatarUrl, s, i).value
  {
    RunBound(s, i + 8, UrlChar, j - 4);
    var e := RunEnd(s, i + 8, UrlChar);
    var r := LastPng(s, i + 9, e);
    assert PngAt(s, j - 4);
  }

  /** The local part of an e-mail match at `i` is the whole run of local-part characters from `i`. */
  lemma EmailLocalPart(s: string, i: nat, a: nat, k: nat, j: nat)
    requires EmailShape(s, i, a, k, j)
    ensures a == RunEnd(s, i, LocalChar)
  {
    RunBound(s, i, LocalChar, a);
    assert !In(LocalChar, s[a]);
  }

  /** At most the letters after the chosen dot `l` follow any later-or-equal dot. */
  lemma EmailTldBound(s: string, k: nat, l: nat, j: nat)
    requires k <= l && l < |s| && s[l] == '.' && k + 1 <= j <= |s| && AllIn(s, k + 1, j, Letter)
    ensures j <= RunEnd(s, l + 1, Letter) || j <= l
  {
    if k < l {
      if j > l {
        assert In(Letter, s[l]);
      }
    } else {
      RunBound(s, l + 1, Letter, j);
    }
  }

  lemma EmailLongest(s: string, i: nat, j: nat)
    requires Matches(Email, s, i, j)
    ensures MatchAt(Email, s, i).Some? && j <= MatchAt(Email, s, i).value
  {
    var a: nat, k: nat :| EmailShape(s, i, a, k, j);
    EmailLocalPart(s, i, a, k, j);
    RunBound(s, a + 1, DomainChar, k);
    RunBound(s, k + 1, Letter, j);
    var d := RunEnd(s, a + 1, DomainChar);
    assert TldAt(s, k);
    var l := LastTld(s, a + 2, d).value;
    EmailTldBound(s, k, l, j);
  }

  /** The match MatchAt finds is a match, and no match at `i` is longer. */
  lemma MatchAtIsLongest(p: Pattern, s: string, i: nat)
    requires i <= |s|
    ensures MatchAt(p, s, i).Some? ==> Matches(p, s, i, MatchAt(p, s, i).value)
    ensures forall j: nat :: Matches(p, s, i, j) ==> MatchAt(p, s, i).Some? && j <= MatchAt(p, s, i).value
  {
    var r := MatchAt(p, s, i);
    match p
    case UserId =>
      forall j: nat | Matches(p, s, i, j) ensures r.Some? && j <= r.value { UserIdLongest(s, i, j); }
    case UserName =>
      forall j: nat | Matches(p, s, i, j) ensures r.Some? && j <= r.value { UserNameLongest(s, i, j); }
    case Phone =>
      forall j: nat | Matches(p, s, i, j) ensures r.Some? && j <= r.value { PhoneLongest(s, i, j); }
    case AvatarUrl =>
      forall j: nat | Matches(p, s, i, j) ensures r.Some? && j <= r.value { AvatarUrlLongest(s, i, j); }
    case Email =>
      if r.Some? {
        EmailFound(s, i);
      }
      forall j: nat | Matches(p, s, i, j) ensures r.Some? && j <= r.value { EmailLongest(s, i, j); }
  }

  /** What the e-mail matcher returns is an e-mail. */
  lemma EmailFound(s: string, i: nat)
    requires i <= |s| && MatchAt(Email, s, i).Some?
    ensures Matches(Email, s, i, MatchAt(Email, s, i).value)
  {
    var a := RunEnd(s, i, LocalChar);
    var d := RunEnd(s, a + 1, DomainChar);
    var k := LastTld(s, a + 2, d).value;
    var j := RunEnd(s, k + 1, Letter);
    assert AllIn(s, a + 1, k, DomainChar);
    assert EmailShape(s, i, a, k, j);
  }

  /** Where a match starts and where it ends. */
  datatype Span = Span(start: nat, end: nat)

  /** `String.prototype.match`: the first start from `from` on at which MatchAt succeeds. */
  function FirstMatch(p: Pattern, s: string, from: nat): (r: Option<Span>)
    requires from <= |s|
    ensures r.Some? ==> from <= r.value.start < |s| && MatchAt(p, s, r.value.start) == Some(r.value.end)
    ensures r.Some? ==> forall i :: from <= i < r.value.start ==> MatchAt(p, s, i).None?
    ensures r.None? ==> forall i :: from <= i < |s| ==> MatchAt(p, s, i).None?
    decreases |s| - from
  {
    if from == |s| then None
    else match MatchAt(p, s, from)
      case Some(e) => Some(Span(from, e))
      case None => FirstMatch(p, s, from + 1)
  }

  /** `match ? match[0] : ''`. */
  function Extract(p: Pattern, s: string): (r: string)
    ensures |r| <= |s|
  {
    match FirstMatch(p, s, 0)
    case Some(sp) => s[sp.start..sp.end]
    case None => ""
  }

  /** `s[i..j]` is the leftmost match of `p`, and the longest match at its start. */
  ghost predicate LeftmostLongest(p: Pattern, s: string, i: nat, j: nat)
  {
    && Matches(p, s, i, j)
    && (forall i': nat, j': nat :: i' < i ==> !Matches(p, s, i', j'))
    && (forall j': nat :: Matches(p, s, i, j') ==> j' <= j)
  }

  /** A match at `i` means MatchAt succeeds there. */
  lemma MatchFound(p: Pattern, s: string, i: nat, j: nat)
    requires Matches(p, s, i, j)
    ensures MatchAt(p, s, i).Some?
  {
    MatchAtIsLongest(p, s, i);
  }

  /**
   * Extract returns the empty string exactly when no part of `s` matches, and
   * otherwise the leftmost-longest match.
   */
  lemma {:induction false} ExtractIsLeftmostLongest(p: Pattern, s: string)
    ensures Extract(p, s) == "" <==> forall i: nat, j: nat :: !Matches(p, s, i, j)
    ensures Extract(p, s) != "" ==>
              exists i: nat, j: nat :: LeftmostLongest(p, s, i, j) && Extract(p, s) == s[i..j]
  {
    var f := FirstMatch(p, s, 0);
    if f.Some? {
      var i, j := f.value.start, f.value.end;
      MatchAtIsLongest(p, s, i);
      forall i': nat, j': nat | i' < i && Matches(p, s, i', j') ensures false {
        MatchFound(p, s, i', j');
      }
      assert LeftmostLongest(p, s, i, j);
      assert Extract(p, s) == s[i..j];
    } else {
      forall i: nat, j: nat | Matches(p, s, i, j) ensures false {
        MatchFound(p, s, i, j);
      }
    }
  }

  /** `extractUserId`: '' or a run of at least six digits. */
  function ExtractUserId(dataStr: string): (r: string)
    ensures r == "" || (|r| >= 6 && forall m :: 0 <= m < |r| ==> IsDigit(r[m]))
  {
    var f := FirstMatch(UserId, dataStr, 0);
    if f.Some? then MatchAtIsLongest(UserId, dataStr, f.value.start); Extract(UserId, dataStr)
    else Extract(UserId, dataStr)
  }

  /** `extractUserName`: '' or a run of CJK characters. */
  function ExtractUserName(dataStr: string): (r: string)
    ensures r == "" || (|r| >= 1 && forall m :: 0 <= m < |r| ==> IsHan(r[m]))
  {
    var f := FirstMatch(UserName, dataStr, 0);
    if f.Some? then MatchAtIsLongest(UserName, dataStr, f.value.start); Extract(UserName, dataStr)
    else Extract(UserName, dataStr)
  }

  /** `extractAvatarUrl`: '' or an https URL without spaces or quotes ending in `.png`. */
  function ExtractAvatarUrl(dataStr: string): (r: string)
    ensures r == "" || (|r| >= 13 && r[..8] == HTTPS && r[|r| - 4..] == PNG)
  {
    var f := FirstMatch(AvatarUrl, dataStr, 0);
    if f.Some? then MatchAtIsLongest(AvatarUrl, dataStr, f.value.start); Extract(AvatarUrl, dataStr)
    else Extract(AvatarUrl, dataStr)
  }

  /** `extractEmail`: '' or a string with an `@` followed later by a dot. */
  function ExtractEmail(dataStr: string): (r: string)
    ensures r == "" || (|r| >= 6 && Matches(Email, r, 0, |r|))
  {
    var f := FirstMatch(Email, dataStr, 0);
    if f.Some? then EmailSlice(dataStr, f.value.start, f.value.end); Extract(Email, dataStr)
    else Extract(Email, dataStr)
  }

  /** An e-mail match, cut out of the string, is an e-mail on its own. */
  lemma EmailSlice(s: string, i: nat, j: nat)
    requires i < |s| && MatchAt(Email, s, i) == Some(j)
    ensures Matches(Email, s[i..j], 0, j - i)
  {
    MatchAtIsLongest(Email, s, i);
    var a: nat, k: nat :| EmailShape(s, i, a, k, j);
    var t := s[i..j];
    assert EmailShape(t, 0, a - i, k - i, j - i);
  }

  /** `extractPhone`: '' or eleven characters `1[3-9]` and nine digits. */
  function ExtractPhone(dataStr: string): (r: string)
    ensures r == "" || (|r| == 11 && r[0] == '1' && '3' <= r[1] <= '9' && forall m :: 2 <= m < 11 ==> IsDigit(r[m]))
  {
    var f := FirstMatch(Phone, dataStr, 0);
    if f.Some? then MatchAtIsLongest(Phone, dataStr, f.value.start); Extract(Phone, dataStr)
    else Extract(Phone, dataStr)
  }
}
