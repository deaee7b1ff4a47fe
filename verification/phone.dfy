/** The access-code request form (src/pages/accesscode/Request.tsx:13-24,
    :40-47): the phone validation rules and the submitted payload.

    The phone pattern is anchored at both ends and is a concatenation of
    character classes each repeated between a lower and an upper bound, so a
    string matches exactly when it splits into consecutive runs, one per
    class, of admissible lengths. `Matches` states that directly. */
module Phone {
  import opened Wrappers
  import opened Text

  datatype CharClass = PlusSign | OpenParen | CloseParen | Separator | Digit

  /** `[\+]`, `[(]`, `[)]`, `[-\s\.]` and `[0-9]`. */
  predicate InClass(c: char, k: CharClass)
  {
    match k
    case PlusSign => c == '+'
    case OpenParen => c == '('
    case CloseParen => c == ')'
    case Separator => c == '-' || c == '.' || IsJsWhitespace(c)
    case Digit => IsDigit(c)
  }

  /** A class repeated `lo` to `hi` times. */
  datatype Elem = Elem(cls: CharClass, lo: nat, hi: nat)

  predicate AllIn(s: string, k: CharClass)
  {
    forall i | 0 <= i < |s| :: InClass(s[i], k)
  }

  /** The whole of `s` splits into one admissible run per element. */
  predicate Matches(s: string, elems: seq<Elem>)
    decreases |elems|
  {
    if elems == [] then s == []
    else exists n | elems[0].lo <= n <= elems[0].hi && n <= |s| ::
           AllIn(s[..n], elems[0].cls) && Matches(s[n..], elems[1..])
  }

  /** The elements of
      `^[\+]?[(]?[0-9]{1,4}[)]?[-\s\.]?[(]?[0-9]{1,4}[)]?[-\s\.]?[0-9]{1,9}$`. */
  const OptPlus := Elem(PlusSign, 0, 1)
  const OptOpen := Elem(OpenParen, 0, 1)
  const OptClose := Elem(CloseParen, 0, 1)
  const OptSep := Elem(Separator, 0, 1)
  const FirstGroup := Elem(Digit, 1, 4)
  const SecondGroup := Elem(Digit, 1, 4)
  const LastGroup := Elem(Digit, 1, 9)

  /** What follows the second digit group: `[)]?[-\s\.]?[0-9]{1,9}`. */
  const AfterSecond: seq<Elem> := [OptClose] + ([OptSep] + [LastGroup])
  /** What follows the first digit group. */
  const AfterFirst: seq<Elem> := [OptClose] + ([OptSep] + ([OptOpen] + ([SecondGroup] + AfterSecond)))
  /** What follows the optional plus sign. */
  const AfterPlus: seq<Elem> := [OptOpen] + ([FirstGroup] + AfterFirst)
  const PhonePattern: seq<Elem> := [OptPlus] + AfterPlus

  const MinLength := 8
  const MaxLength := 20

  /** Which of the schema's phone rules a value breaks: required, the
      pattern, and the length bounds, which count characters. */
  datatype PhoneFailures = PhoneFailures(missing: bool, badFormat: bool, tooShort: bool, tooLong: bool)

  function CheckPhone(phone: string): (f: PhoneFailures)
    ensures f.missing <==> phone == ""
    ensures f.badFormat <==> !Matches(phone, PhonePattern)
    ensures f.tooShort <==> |phone| < 8
    ensures f.tooLong <==> |phone| > 20
  {
    PhoneFailures(phone == "", !Matches(phone, PhonePattern), |phone| < MinLength, |phone| > MaxLength)
  }

  predicate Accepted(phone: string)
  {
    CheckPhone(phone) == PhoneFailures(false, false, false, false)
  }

  // ----- matching element by element

  /** Taking `n` characters for the element in front. */
  lemma MatchCons(s: string, e: Elem, rest: seq<Elem>, n: nat)
    requires e.lo <= n <= e.hi && n <= |s|
    requires AllIn(s[..n], e.cls) && Matches(s[n..], rest)
    ensures Matches(s, [e] + rest)
  {
    var elems := [e] + rest;
    assert elems[0] == e && elems[1..] == rest;
  }

  /** Skipping an optional element in front. */
  lemma MatchSkipCons(s: string, e: Elem, rest: seq<Elem>)
    requires e.lo == 0 && Matches(s, rest)
    ensures Matches(s, [e] + rest)
  {
    assert s[..0] == [] && s[0..] == s;
    MatchCons(s, e, rest, 0);
  }

  /** Taking one character for the element in front. */
  lemma MatchOne(s: string, e: Elem, rest: seq<Elem>)
    requires |s| >= 1 && e.lo <= 1 <= e.hi && InClass(s[0], e.cls) && Matches(s[1..], rest)
    ensures Matches(s, [e] + rest)
  {
    assert AllIn(s[..1], e.cls) by { assert s[..1][0] == s[0]; }
    MatchCons(s, e, rest, 1);
  }

  /** The run the element in front takes in a match. */
  lemma MatchUncons(s: string, e: Elem, rest: seq<Elem>) returns (n: nat)
    requires Matches(s, [e] + rest)
    ensures e.lo <= n <= e.hi && n <= |s| && AllIn(s[..n], e.cls) && Matches(s[n..], rest)
  {
    var elems := [e] + rest;
    assert elems[0] == e && elems[1..] == rest;
    n :| e.lo <= n <= e.hi && n <= |s| && AllIn(s[..n], e.cls) && Matches(s[n..], rest);
  }

  // ----- what an accepted phone looks like

  /** The characters any of the classes admit. */
  predicate Allowed(c: char)
  {
    IsDigit(c) || c == '+' || c == '(' || c == ')' || c == '-' || c == '.' || IsJsWhitespace(c)
  }

  lemma {:induction false} MatchedAllowed(s: string, elems: seq<Elem>)
    requires Matches(s, elems)
    ensures forall i | 0 <= i < |s| :: Allowed(s[i])
    decreases |elems|
  {
    if elems != [] {
      var n :| elems[0].lo <= n <= elems[0].hi && n <= |s| && AllIn(s[..n], elems[0].cls) && Matches(s[n..], elems[1..]);
      MatchedAllowed(s[n..], elems[1..]);
      forall i | 0 <= i < |s|
        ensures Allowed(s[i])
      {
        if i < n {
          assert InClass(s[..n][i], elems[0].cls);
        } else {
          assert s[i] == s[n..][i - n];
        }
      }
    }
  }

  /** A character no element admits does not occur in a match. */
  lemma {:induction false} MatchedAvoids(s: string, elems: seq<Elem>, x: char)
    requires Matches(s, elems)
    requires forall e | e in elems :: !InClass(x, e.cls)
    ensures x !in s
    decreases |elems|
  {
    if elems != [] {
      var n :| elems[0].lo <= n <= elems[0].hi && n <= |s| && AllIn(s[..n], elems[0].cls) && Matches(s[n..], elems[1..]);
      assert elems == [elems[0]] + elems[1..];
      MatchedAvoids(s[n..], elems[1..], x);
      forall i | 0 <= i < |s|
        ensures s[i] != x
      {
        if i < n {
          assert InClass(s[..n][i], elems[0].cls);
        } else {
          assert s[i] == s[n..][i - n];
        }
      }
    }
  }

  /** Only the first element admits '+'. */
  lemma NoPlusAfterFirst()
    ensures forall e | e in AfterPlus :: !InClass('+', e.cls)
  {
    assert forall e | e in AfterSecond :: e in {OptClose, OptSep, LastGroup};
    assert forall e | e in AfterFirst :: e in {OptClose, OptSep, OptOpen, SecondGroup, LastGroup};
  }

  /** An accepted phone holds only digits, '+', parentheses, '-', '.' and
      whitespace, and a '+' only in front. */
  lemma AcceptedShape(phone: string)
    requires Accepted(phone)
    ensures forall i | 0 <= i < |phone| :: Allowed(phone[i])
    ensures forall i | 0 <= i < |phone| && phone[i] == '+' :: i == 0
  {
    assert Matches(phone, PhonePattern);
    MatchedAllowed(phone, PhonePattern);
    var n := MatchUncons(phone, OptPlus, AfterPlus);
    NoPlusAfterFirst();
    MatchedAvoids(phone[n..], AfterPlus, '+');
    forall i | n <= i < |phone|
      ensures phone[i] != '+'
    {
      assert phone[i] == phone[n..][i - n];
    }
  }

  /** Number of digits. */
  function DigitCount(s: string): nat
  {
    if s == [] then 0 else (if IsDigit(s[0]) then 1 else 0) + DigitCount(s[1..])
  }

  lemma {:induction false} DigitCountAppend(a: string, b: string)
    ensures DigitCount(a + b) == DigitCount(a) + DigitCount(b)
  {
    if a == [] {
      assert a + b == b;
    } else {
      assert (a + b)[0] == a[0];
      assert (a + b)[1..] == a[1..] + b;
      DigitCountAppend(a[1..], b);
    }
  }

  /** A run of one class has as many digits as characters if the class is
      the digits, and none otherwise. */
  lemma {:induction false} RunDigits(s: string, k: CharClass)
    requires AllIn(s, k)
    ensures DigitCount(s) == if k == Digit then |s| else 0
  {
    if s != [] {
      assert InClass(s[0], k);
      assert AllIn(s[1..], k) by {
        forall i | 0 <= i < |s| - 1
          ensures InClass(s[1..][i], k)
        {
          assert s[1..][i] == s[i + 1];
        }
      }
      RunDigits(s[1..], k);
    }
  }

  /** The least and most digits the elements admit. */
  function MinDigits(elems: seq<Elem>): nat
  {
    if elems == [] then 0 else (if elems[0].cls == Digit then elems[0].lo else 0) + MinDigits(elems[1..])
  }

  function MaxDigits(elems: seq<Elem>): nat
  {
    if elems == [] then 0 else (if elems[0].cls == Digit then elems[0].hi else 0) + MaxDigits(elems[1..])
  }

  lemma {:induction false} MatchedDigitBounds(s: string, elems: seq<Elem>)
    requires Matches(s, elems)
    ensures MinDigits(elems) <= DigitCount(s) <= MaxDigits(elems)
    decreases |elems|
  {
    if elems != [] {
      var n :| elems[0].lo <= n <= elems[0].hi && n <= |s| && AllIn(s[..n], elems[0].cls) && Matches(s[n..], elems[1..]);
      MatchedDigitBounds(s[n..], elems[1..]);
      assert s == s[..n] + s[n..];
      DigitCountAppend(s[..n], s[n..]);
      RunDigits(s[..n], elems[0].cls);
    }
  }

  lemma DigitBoundsCons(e: Elem, rest: seq<Elem>)
    ensures MinDigits([e] + rest) == (if e.cls == Digit then e.lo else 0) + MinDigits(rest)
    ensures MaxDigits([e] + rest) == (if e.cls == Digit then e.hi else 0) + MaxDigits(rest)
  {
    assert ([e] + rest)[0] == e && ([e] + rest)[1..] == rest;
  }

  /** The pattern admits 3 to 17 digits. */
  lemma PatternDigitBounds()
    ensures MinDigits(PhonePattern) == 3 && MaxDigits(PhonePattern) == 17
  {
    DigitBoundsCons(LastGroup, []);
    assert [LastGroup] + [] == [LastGroup];
    DigitBoundsCons(OptSep, [LastGroup]);
    DigitBoundsCons(OptClose, [OptSep] + [LastGroup]);
    var t := [SecondGroup] + AfterSecond;
    DigitBoundsCons(SecondGroup, AfterSecond);
    DigitBoundsCons(OptOpen, t);
    DigitBoundsCons(OptSep, [OptOpen] + t);
    DigitBoundsCons(OptClose, [OptSep] + ([OptOpen] + t));
    DigitBoundsCons(FirstGroup, AfterFirst);
    DigitBoundsCons(OptOpen, [FirstGroup] + AfterFirst);
    DigitBoundsCons(OptPlus, AfterPlus);
  }

  /** An accepted phone has between 3 and 17 digits. */
  lemma AcceptedDigitCount(phone: string)
    requires Accepted(phone)
    ensures 3 <= DigitCount(phone) <= 17
  {
    MatchedDigitBounds(phone, PhonePattern);
    PatternDigitBounds();
  }

  // ----- which phones are accepted

  predicate AllDigits(s: string)
  {
    forall i | 0 <= i < |s| :: IsDigit(s[i])
  }

  lemma AllDigitsRun(s: string, a: nat, b: nat)
    requires AllDigits(s) && a <= b <= |s|
    ensures AllIn(s[a..b], Digit)
  {
    assert forall i | 0 <= i < b - a :: s[a..b][i] == s[a + i];
  }

  /** A run of one to nine digits matches what follows the second group. */
  lemma LastGroupMatches(t: string)
    requires AllDigits(t) && 1 <= |t| <= 9
    ensures Matches(t, AfterSecond)
  {
    AllDigitsRun(t, 0, |t|);
    assert t[..|t|] == t[0..|t|] && t[|t|..] == [];
    MatchCons(t, LastGroup, [], |t|);
    assert [LastGroup] + [] == [LastGroup];
    MatchSkipCons(t, OptSep, [LastGroup]);
    MatchSkipCons(t, OptClose, [OptSep] + [LastGroup]);
  }

  /** One to four digits in front of a matched tail make the second group. */
  lemma MiddleGroupMatches(t: string, g: nat)
    requires AllDigits(t) && 1 <= g <= 4 && g <= |t| && Matches(t[g..], AfterSecond)
    ensures Matches(t, AfterFirst)
  {
    AllDigitsRun(t, 0, g);
    assert t[..g] == t[0..g];
    var u := [SecondGroup] + AfterSecond;
    MatchCons(t, SecondGroup, AfterSecond, g);
    MatchSkipCons(t, OptOpen, u);
    MatchSkipCons(t, OptSep, [OptOpen] + u);
    MatchSkipCons(t, OptClose, [OptSep] + ([OptOpen] + u));
  }

  /** One to four digits in front of a matched tail make the first group. */
  lemma FirstGroupMatches(s: string, g: nat)
    requires AllDigits(s) && 1 <= g <= 4 && g <= |s| && Matches(s[g..], AfterFirst)
    ensures Matches(s, PhonePattern)
  {
    AllDigitsRun(s, 0, g);
    assert s[..g] == s[0..g];
    MatchCons(s, FirstGroup, AfterFirst, g);
    MatchSkipCons(s, OptOpen, [FirstGroup] + AfterFirst);
    MatchSkipCons(s, OptPlus, AfterPlus);
  }

  lemma AllDigitsSuffix(s: string, k: nat)
    requires AllDigits(s) && k <= |s|
    ensures AllDigits(s[k..])
  {
    assert forall i | 0 <= i < |s| - k :: s[k..][i] == s[k + i];
  }

  /** A digit string of 3 to 17 characters matches the pattern: the last
      group takes up to nine digits, the first up to four, the middle group
      the rest. */
  lemma DigitsMatch(s: string)
    requires AllDigits(s) && 3 <= |s| <= 17
    ensures Matches(s, PhonePattern)
  {
    var g3 := if |s| - 2 < 9 then |s| - 2 else 9;
    var r := |s| - g3;
    var g1 := if r - 1 < 4 then r - 1 else 4;
    var g2 := r - g1;
    AllDigitsSuffix(s, g1 + g2);
    LastGroupMatches(s[g1 + g2..]);
    AllDigitsSuffix(s, g1);
    assert s[g1..][g2..] == s[g1 + g2..];
    MiddleGroupMatches(s[g1..], g2);
    FirstGroupMatches(s, g1);
  }

  /** A phone of digits only is accepted exactly when it has 8 to 17 of
      them: the length bounds cut it off below, the pattern above. */
  lemma DigitPhoneAcceptedIff(s: string)
    requires AllDigits(s)
    ensures Accepted(s) <==> 8 <= |s| <= 17
  {
    if 8 <= |s| <= 17 {
      DigitsMatch(s);
    }
    if Accepted(s) {
      AcceptedDigitCount(s);
      DigitCountOfDigits(s);
    }
  }

  lemma {:induction false} DigitCountOfDigits(s: string)
    requires AllDigits(s)
    ensures DigitCount(s) == |s|
  {
    if s != [] {
      DigitCountOfDigits(s[1..]);
    }
  }

  /** The minimum length counts characters, not digits: a phone with three
      digits, such as "(1) (2) 3", gets through. */
  lemma ThreeDigitsAccepted(a: char, b: char, c: char)
    requires IsDigit(a) && IsDigit(b) && IsDigit(c)
    ensures var s := ['(', a, ')', ' ', '(', b, ')', ' ', c];
            Accepted(s) && DigitCount(s) == 3
  {
    var s := ['(', a, ')', ' ', '(', b, ')', ' ', c];
    ThreeDigitsHead(s);
    CountSuffixes(s);
  }

  /** The shape "(a) (b) c" character by character. */
  predicate ThreeDigitShape(s: string)
  {
    && |s| == 9 && IsDigit(s[1]) && IsDigit(s[5]) && IsDigit(s[8])
    && s[0] == '(' && s[2] == ')' && s[3] == ' ' && s[4] == '(' && s[6] == ')' && s[7] == ' '
  }

  lemma ThreeDigitsHead(s: string)
    requires ThreeDigitShape(s)
    ensures Matches(s, PhonePattern)
  {
    ThreeDigitsTail(s);
    var u := [OptOpen] + ([SecondGroup] + AfterSecond);
    assert s[3..][1..] == s[4..];
    MatchOne(s[3..], OptSep, u);
    assert s[2..][1..] == s[3..];
    MatchOne(s[2..], OptClose, [OptSep] + u);
    assert s[1..][1..] == s[2..];
    MatchOne(s[1..], FirstGroup, AfterFirst);
    MatchOne(s, OptOpen, [FirstGroup] + AfterFirst);
    MatchSkipCons(s, OptPlus, AfterPlus);
  }

  /** "(b) c" matches what follows the first group's separator. */
  lemma ThreeDigitsTail(s: string)
    requires ThreeDigitShape(s)
    ensures Matches(s[4..], [OptOpen] + ([SecondGroup] + AfterSecond))
  {
    var t := s[4..];
    assert t[4..][1..] == [];
    MatchOne(t[4..], LastGroup, []);
    assert [LastGroup] + [] == [LastGroup];
    assert t[3..][1..] == t[4..];
    MatchOne(t[3..], OptSep, [LastGroup]);
    assert t[2..][1..] == t[3..];
    MatchOne(t[2..], OptClose, [OptSep] + [LastGroup]);
    assert t[1..][1..] == t[2..];
    MatchOne(t[1..], SecondGroup, AfterSecond);
    MatchOne(t, OptOpen, [SecondGroup] + AfterSecond);
  }

  /** Counting the digits of the three-digit example from its end. */
  lemma CountSuffixes(s: string)
    requires ThreeDigitShape(s)
    ensures DigitCount(s) == 3
  {
    assert s[8..][1..] == [];
    assert DigitCount(s[8..]) == 1;
    assert DigitCount(s[7..]) == 1 by { assert s[7..][1..] == s[8..]; }
    assert DigitCount(s[6..]) == 1 by { assert s[6..][1..] == s[7..]; }
    assert DigitCount(s[5..]) == 2 by { assert s[5..][1..] == s[6..]; }
    assert DigitCount(s[4..]) == 2 by { assert s[4..][1..] == s[5..]; }
    assert DigitCount(s[3..]) == 2 by { assert s[3..][1..] == s[4..]; }
    assert DigitCount(s[2..]) == 2 by { assert s[2..][1..] == s[3..]; }
    assert DigitCount(s[1..]) == 3 by { assert s[1..][1..] == s[2..]; }
  }

  // ----- the submitted request

  /** What is sent to the store; the organisation name column is nullable. */
  datatype RequestPayload = RequestPayload(phone: string, organizationName: Option<string>)

  /** The organisation name after validation: `default('')` fills a missing
      value with the empty string. */
  function OrganizationName(input: Option<string>): (name: string)
    ensures input.Some? ==> name == input.value
    ensures input.None? ==> name == ""
  {
    match input
    case None => ""
    case Some(v) => v
  }

  /** `handleSubmit(onSubmit)`: nothing is sent unless the phone passes every
      rule; `organizationName ?? null` never yields null, because the
      validated name is always a string. */
  function Submit(phone: string, organizationInput: Option<string>): (r: Option<RequestPayload>)
    ensures r.Some? <==> Accepted(phone)
    ensures r.Some? ==> r.value.phone == phone && r.value.organizationName.Some?
    ensures r.Some? && organizationInput.None? ==> r.value.organizationName == Some("")
    ensures r.Some? && organizationInput.Some? ==> r.value.organizationName == organizationInput
  {
    if Accepted(phone) then Some(RequestPayload(phone, Some(OrganizationName(organizationInput)))) else None
  }

  /** What reaches the service: a sent request carries a phone made only of
      the pattern's characters, with '+' at most in front, holding 3 to 17
      digits, and the name the user typed when there was one. */
  lemma SubmittedRequestIsWellFormed(phone: string, organizationInput: Option<string>)
    ensures Submit(phone, organizationInput).Some? ==>
              var sent := Submit(phone, organizationInput).value.phone;
              (forall i | 0 <= i < |sent| :: Allowed(sent[i]))
              && (forall i | 0 <= i < |sent| && sent[i] == '+' :: i == 0)
              && 3 <= DigitCount(sent) <= 17
  {
    if Accepted(phone) {
      AcceptedShape(phone);
      AcceptedDigitCount(phone);
    }
  }
}
