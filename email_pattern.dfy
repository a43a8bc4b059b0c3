/**
 * The email rule of the contact form (src/components/sections/Contact.tsx):
 * `/^[A-Z0-9._%+-]+@[A-Z0-9.-]+\.[A-Z]{2,}$/i`, a local part, '@', a domain part,
 * '.', and a top-level part of at least two letters, matched case-insensitively.
 * Without the `u` flag, case folding maps only the ASCII letters onto each other.
 */
module EmailPattern {

  import opened Chars

  predicate IsLetter(c: char)
  {
    'A' <= c <= 'Z' || 'a' <= c <= 'z'
  }

  /** `[A-Z0-9._%+-]` under the `i` flag */
  predicate IsLocalChar(c: char)
  {
    IsLetter(c) || IsDigit(c) || c == '.' || c == '_' || c == '%' || c == '+' || c == '-'
  }

  /** `[A-Z0-9.-]` under the `i` flag */
  predicate IsDomainChar(c: char)
  {
    IsLetter(c) || IsDigit(c) || c == '.' || c == '-'
  }

  /** The pattern matches s with the '@' at index at and the escaped '.' at index dot. */
  predicate MatchesAt(s: string, at: nat, dot: nat)
  {
    && 0 < at && at + 1 < dot && dot + 3 <= |s|
    && s[at] == '@' && s[dot] == '.'
    && (forall i :: 0 <= i < at ==> IsLocalChar(s[i]))
    && (forall i :: at < i < dot ==> IsDomainChar(s[i]))
    && (forall i :: dot < i < |s| ==> IsLetter(s[i]))
  }

  /** The anchored pattern matches s for some choice of the two split points. */
  predicate MatchesEmailPattern(s: string)
  {
    exists at, dot :: 0 <= at < |s| && 0 <= dot < |s| && MatchesAt(s, at, dot)
  }

  function IndexOf(s: string, c: char): (r: nat)
    requires c in s
    ensures r < |s| && s[r] == c
    ensures forall i :: 0 <= i < r ==> s[i] != c
  {
    if s[0] == c then 0 else IndexOf(s[1..], c) + 1
  }

  function LastIndexOf(s: string, c: char): (r: nat)
    requires c in s
    ensures r < |s| && s[r] == c
    ensures forall i :: r < i < |s| ==> s[i] != c
  {
    if s[|s| - 1] == c then |s| - 1
    else
      assert c in s[..|s| - 1] by {
        var k :| 0 <= k < |s| && s[k] == c;
        assert s[..|s| - 1][k] == c;
      }
      LastIndexOf(s[..|s| - 1], c)
  }

  /** The shape an accepted address has, read off character by character: a single '@'
      after a non-empty local part of local characters, domain characters after it, and
      a last '.' that has at least one character between it and the '@' and at least two
      letters, and nothing else, after it. */
  predicate WellFormedEmail(s: string)
  {
    && '@' in s && '.' in s
    && var at, dot := IndexOf(s, '@'), LastIndexOf(s, '.');
    && (forall i :: 0 <= i < |s| && s[i] == '@' ==> i == at)
    && at > 0 && (forall i :: 0 <= i < at ==> IsLocalChar(s[i]))
    && (forall i :: at < i < |s| ==> IsDomainChar(s[i]))
    && at + 1 < dot && |s| - dot - 1 >= 2
    && (forall i :: dot < i < |s| ==> IsLetter(s[i]))
  }

  /** The pattern accepts exactly the well-formed addresses. */
  lemma PatternIsWellFormedEmail(s: string)
    ensures MatchesEmailPattern(s) <==> WellFormedEmail(s)
  {
    if MatchesEmailPattern(s) {
      var at, dot :| 0 <= at < |s| && 0 <= dot < |s| && MatchesAt(s, at, dot);
      assert '@' in s && '.' in s;
      assert IndexOf(s, '@') == at;
      assert LastIndexOf(s, '.') == dot;
    }
    if WellFormedEmail(s) {
      var at, dot := IndexOf(s, '@'), LastIndexOf(s, '.');
      forall i | at < i < dot ensures IsDomainChar(s[i]) {
      }
      assert MatchesAt(s, at, dot);
    }
  }

  /** Consequences for an accepted address, one per clause of the pattern. */
  lemma AcceptedEmailShape(s: string)
    requires MatchesEmailPattern(s)
    ensures exists at :: 0 <= at < |s| && s[at] == '@' && forall i :: 0 <= i < |s| && s[i] == '@' ==> i == at
    ensures var at := IndexOf(s, '@');
            && at > 0
            && (forall i :: 0 <= i < at ==> IsLocalChar(s[i]))
            && (forall i :: at < i < |s| ==> IsDomainChar(s[i]))
    ensures var at, dot := IndexOf(s, '@'), LastIndexOf(s, '.');
            at + 1 < dot && dot + 3 <= |s| && forall i :: dot < i < |s| ==> IsLetter(s[i])
  {
    PatternIsWellFormedEmail(s);
    var at := IndexOf(s, '@');
    assert s[at] == '@';
  }

  /** ASCII case folding, as the `i` flag does without the `u` flag. */
  function FoldCase(c: char): (u: char)
    ensures IsLetter(c) <==> IsLetter(u)
    ensures !IsLetter(c) ==> u == c
    ensures 'a' <= c <= 'z' ==> 'A' <= u <= 'Z' && u as int == c as int - 32
  {
    if 'a' <= c <= 'z' then (c as int - 32) as char else c
  }

  /** s and t differ at most in the case of their letters. */
  predicate SameUpToCase(s: string, t: string)
  {
    |s| == |t| && forall i :: 0 <= i < |s| ==> FoldCase(s[i]) == FoldCase(t[i])
  }

  lemma FoldCasePreservesClasses(c: char, d: char)
    requires FoldCase(c) == FoldCase(d)
    ensures IsLocalChar(c) <==> IsLocalChar(d)
    ensures IsDomainChar(c) <==> IsDomainChar(d)
    ensures IsLetter(c) <==> IsLetter(d)
    ensures c == '@' <==> d == '@'
    ensures c == '.' <==> d == '.'
  {
  }

  /** Matching ignores the case of letters. */
  lemma MatchIgnoresCase(s: string, t: string)
    requires SameUpToCase(s, t)
    ensures MatchesEmailPattern(s) <==> MatchesEmailPattern(t)
  {
    forall at, dot | 0 <= at < |s| && 0 <= dot < |s|
      ensures MatchesAt(s, at, dot) <==> MatchesAt(t, at, dot)
    {
      forall i | 0 <= i < |s| ensures
        && (IsLocalChar(s[i]) <==> IsLocalChar(t[i]))
        && (IsDomainChar(s[i]) <==> IsDomainChar(t[i]))
        && (IsLetter(s[i]) <==> IsLetter(t[i]))
        && (s[i] == '@' <==> t[i] == '@')
        && (s[i] == '.' <==> t[i] == '.')
      {
        FoldCasePreservesClasses(s[i], t[i]);
      }
    }
  }

  lemma AcceptsMixedCaseAddress()
    ensures MatchesEmailPattern("Jo.Doe+x@mail.Example.CO")
  {
    assert MatchesAt("Jo.Doe+x@mail.Example.CO", 8, 21);
  }

  lemma RejectsOneLetterTopLevel()
    ensures !MatchesEmailPattern("jo@example.c")
  {
    PatternIsWellFormedEmail("jo@example.c");
  }

  lemma RejectsTwoAts()
    ensures !MatchesEmailPattern("jo@@example.com")
  {
    var s := "jo@@example.com";
    PatternIsWellFormedEmail(s);
    assert s[2] == '@' && s[3] == '@';
  }
}
