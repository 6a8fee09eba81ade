/** What the validators let through as a domain name and as a local part. */
module Names {
  import opened Text

  predicate LowerAlnum(c: char) {
    'a' <= c <= 'z' || '0' <= c <= '9'
  }

  /** `[a-z0-9](?:[a-z0-9-]{0,61}[a-z0-9])?` */
  predicate Label(s: string) {
    && 1 <= |s| <= 63
    && LowerAlnum(s[0]) && LowerAlnum(s[|s| - 1])
    && forall i :: 0 <= i < |s| ==> LowerAlnum(s[i]) || s[i] == '-'
  }

  /** `[a-z]{2,63}` */
  predicate TopLevel(s: string) {
    2 <= |s| <= 63 && forall i :: 0 <= i < |s| ==> 'a' <= s[i] <= 'z'
  }

  /** Labels, each before a dot, then a top-level label. */
  predicate DottedName(s: string)
    decreases |s|
  {
    var i := IndexOf(s, '.');
    if i == |s| then false
    else Label(s[..i]) && (TopLevel(s[i + 1..]) || DottedName(s[i + 1..]))
  }

  predicate ValidDomainName(name: string) {
    |name| <= 253 && !("mail." <= name) && DottedName(name)
  }

  /** The characters a domain name can hold. */
  predicate DomainChars(name: string) {
    name != "" && forall i :: 0 <= i < |name| ==> LowerAlnum(name[i]) || name[i] == '.' || name[i] == '-'
  }

  lemma {:induction false} DottedNameChars(s: string)
    requires DottedName(s)
    ensures DomainChars(s) && LowerAlnum(s[0]) && LowerAlnum(s[|s| - 1])
    decreases |s|
  {
    var i := IndexOf(s, '.');
    var head, tail := s[..i], s[i + 1..];
    if !TopLevel(tail) {
      DottedNameChars(tail);
    }
    assert s[0] == head[0] && s[|s| - 1] == tail[|tail| - 1];
    forall k | 0 <= k < |s|
      ensures LowerAlnum(s[k]) || s[k] == '.' || s[k] == '-'
    {
      if k < i {
        assert s[k] == head[k];
      } else if k > i {
        assert s[k] == tail[k - i - 1];
      }
    }
  }

  predicate LocalChar(c: char) {
    LowerAlnum(c) || c in ".+_-"
  }

  predicate SingleDots(s: string) {
    forall i :: 0 < i < |s| && s[i] == '.' ==> s[i - 1] != '.'
  }

  /** `ValidateLocalPart`. It looks at a trimmed copy of its argument. */
  predicate ValidLocalPart(localPart: string) {
    var s := TrimSpace(localPart);
    && 1 <= |s| <= 64
    && LowerAlnum(s[0]) && LowerAlnum(s[|s| - 1])
    && (forall i :: 0 <= i < |s| ==> LocalChar(s[i]))
    && SingleDots(s)
  }

  predicate AtomChar(c: char) {
    LowerAlnum(c) || c == '+' || c == '_' || c == '-'
  }

  /** Between the dots of a local part. */
  predicate Atom(s: string) {
    s != "" && forall i :: 0 <= i < |s| ==> AtomChar(s[i])
  }

  predicate AtomsAndDots(s: string) {
    forall i :: 0 <= i < |s| ==> AtomChar(s[i]) || s[i] == '.'
  }

  predicate DotsApart(s: string) {
    s != "" && s[0] != '.' && s[|s| - 1] != '.' && AtomsAndDots(s) && SingleDots(s)
  }

  lemma LocalCharIs(c: char)
    ensures LocalChar(c) <==> AtomChar(c) || c == '.'
  {
  }

  lemma AtomHasNoDots(s: string)
    requires '.' !in s
    ensures DotsApart(s) <==> Atom(s)
  {
    forall i | 0 <= i < |s|
      ensures s[i] != '.'
    {
      assert s[i] in s;
    }
  }

  lemma CharsAround(head: string, tail: string)
    ensures AtomsAndDots(head + ['.'] + tail) <==> AtomsAndDots(head) && AtomsAndDots(tail)
  {
    var s := head + ['.'] + tail;
    assert forall k :: 0 <= k < |head| ==> s[k] == head[k];
    assert forall k :: 0 <= k < |tail| ==> s[|head| + 1 + k] == tail[k];
    if AtomsAndDots(head) && AtomsAndDots(tail) {
      forall k | 0 <= k < |s|
        ensures AtomChar(s[k]) || s[k] == '.'
      {
        if k > |head| {
          assert s[k] == tail[k - |head| - 1];
        }
      }
    }
  }

  lemma DotsAround(head: string, tail: string)
    requires '.' !in head && tail != ""
    ensures SingleDots(head + ['.'] + tail) <==> SingleDots(tail) && tail[0] != '.'
  {
    var s, n := head + ['.'] + tail, |head|;
    assert forall k :: 0 <= k < n ==> s[k] == head[k] && head[k] in head;
    assert forall k :: 0 <= k < |tail| ==> s[n + 1 + k] == tail[k];
    assert s[n] == '.';
    if SingleDots(tail) && tail[0] != '.' {
      forall k | 0 < k < |s| && s[k] == '.'
        ensures s[k - 1] != '.'
      {
        if k > n + 1 {
          assert s[k] == tail[k - n - 1] && s[k - 1] == tail[k - n - 2];
        }
      }
    }
    if SingleDots(s) {
      assert s[n + 1] != '.';
      forall k | 0 < k < |tail| && tail[k] == '.'
        ensures tail[k - 1] != '.'
      {
        assert s[n + 1 + k] == '.' && s[n + k] == tail[k - 1];
      }
    }
  }

  lemma FirstAtom(head: string, tail: string)
    requires '.' !in head
    ensures DotsApart(head + ['.'] + tail) <==> Atom(head) && DotsApart(tail)
  {
    var s := head + ['.'] + tail;
    AtomHasNoDots(head);
    CharsAround(head, tail);
    if tail == "" {
      assert s[|s| - 1] == '.';
    } else {
      DotsAround(head, tail);
      assert s[|s| - 1] == tail[|tail| - 1];
      assert s[0] == if head == "" then '.' else head[0];
    }
  }

  predicate Atoms(parts: seq<string>) {
    forall k :: 0 <= k < |parts| ==> Atom(parts[k])
  }

  lemma AtomsCons(head: string, rest: seq<string>)
    ensures Atoms([head] + rest) <==> Atom(head) && Atoms(rest)
  {
    var parts := [head] + rest;
    assert parts[0] == head;
    forall k | 0 <= k < |rest|
      ensures parts[k + 1] == rest[k]
    {
    }
  }

  lemma {:induction false} AtomsBetweenDots(s: string)
    ensures DotsApart(s) <==> Atoms(Split(s, '.'))
    decreases |s|
  {
    var i := IndexOf(s, '.');
    if i == |s| {
      AtomHasNoDots(s);
      AtomsCons(s, []);
      assert Split(s, '.') == [s] + [];
    } else {
      assert s == s[..i] + ['.'] + s[i + 1..];
      FirstAtom(s[..i], s[i + 1..]);
      AtomsBetweenDots(s[i + 1..]);
      AtomsCons(s[..i], Split(s[i + 1..], '.'));
    }
  }

  lemma LocalCharsAre(s: string)
    ensures (forall i :: 0 <= i < |s| ==> LocalChar(s[i])) <==> AtomsAndDots(s)
  {
    forall i | 0 <= i < |s|
      ensures LocalChar(s[i]) <==> AtomChar(s[i]) || s[i] == '.'
    {
      LocalCharIs(s[i]);
    }
  }

  lemma LocalPartDots(s: string)
    requires Trimmed(s)
    ensures ValidLocalPart(s) <==> 1 <= |s| <= 64 && DotsApart(s) && LowerAlnum(s[0]) && LowerAlnum(s[|s| - 1])
  {
    TrimSpaceFixes(s);
    LocalCharsAre(s);
  }

  /** What a trimmed local part has to be: at most 64 characters, words of lower-case letters,
      digits and `+_-` between single dots, with a letter or digit at both ends. */
  lemma LocalPartExactly(s: string)
    requires Trimmed(s)
    ensures ValidLocalPart(s) <==>
            1 <= |s| <= 64 && Atoms(Split(s, '.')) && LowerAlnum(s[0]) && LowerAlnum(s[|s| - 1])
  {
    LocalPartDots(s);
    AtomsBetweenDots(s);
  }

  /** The parts of a domain name: labels, and a top-level label last. */
  predicate DomainParts(parts: seq<string>) {
    && |parts| >= 2 && TopLevel(parts[|parts| - 1])
    && forall k :: 0 <= k < |parts| - 1 ==> Label(parts[k])
  }

  lemma DomainPartsCons(head: string, rest: seq<string>)
    requires rest != []
    ensures DomainParts([head] + rest) <==>
            Label(head) && if |rest| == 1 then TopLevel(rest[0]) else DomainParts(rest)
  {
    var parts := [head] + rest;
    assert parts[0] == head;
    forall k | 0 <= k < |rest|
      ensures parts[k + 1] == rest[k]
    {
    }
  }

  /** A domain name is what stands between its dots. */
  lemma {:induction false} DottedNameExactly(s: string)
    ensures DottedName(s) <==> DomainParts(Split(s, '.'))
    decreases |s|
  {
    var i := IndexOf(s, '.');
    if i < |s| {
      var tail := s[i + 1..];
      DottedNameExactly(tail);
      DomainPartsCons(s[..i], Split(tail, '.'));
      if TopLevel(tail) {
        assert '.' !in tail;
      }
    }
  }

  lemma FirstIsMail(s: string)
    requires '.' in s
    ensures "mail." <= s <==> s[..IndexOf(s, '.')] == "mail"
  {
    var i := IndexOf(s, '.');
    var mail := "mail";
    assert mail + "." == "mail.";
    if "mail." <= s {
      assert s[..5] == "mail.";
      assert forall j :: 0 <= j < 4 ==> s[j] == mail[j] && mail[j] != '.';
      assert s[4] == '.';
      assert s[..4] == mail;
    }
    if s[..i] == mail {
      assert s[..5] == s[..4] + [s[4]];
    }
  }

  /** So a domain name is one of at most 253 characters whose first label is not `mail`. */
  lemma DomainNameExactly(s: string)
    ensures ValidDomainName(s) <==>
            |s| <= 253 && DomainParts(Split(s, '.')) && Split(s, '.')[0] != "mail"
  {
    DottedNameExactly(s);
    if '.' in s {
      FirstIsMail(s);
    }
  }

  // ---- normal form ----

  /** Trimmed and lower case: what `ToLower(TrimSpace(s))` leaves alone. */
  predicate Normal(s: string) {
    Trimmed(s) && ToLower(s) == s
  }

  function Normalize(s: string): string {
    ToLower(TrimSpace(s))
  }

  lemma NormalizeIsNormal(s: string)
    ensures Normal(Normalize(s))
    ensures Normal(s) ==> Normalize(s) == s
  {
    TrimSpaceTrims(s);
    TrimSpaceFixes(s);
    ToLowerIdempotent(TrimSpace(s));
    var t := TrimSpace(s);
    if t != "" {
      assert IsSpace(LowerChar(t[0])) <==> IsSpace(t[0]);
      assert IsSpace(LowerChar(t[|t| - 1])) <==> IsSpace(t[|t| - 1]);
    }
  }

  lemma LowerCharsAreLower(s: string)
    requires forall i :: 0 <= i < |s| ==> !('A' <= s[i] <= 'Z')
    ensures ToLower(s) == s
  {
  }

  /** An address made of a lower-case local part that starts without a blank. */
  lemma AddressNormal(lp: string, domain: string)
    requires DottedName(domain) && ToLower(lp) == lp && lp != "" && !IsSpace(lp[0])
    ensures Normal(lp + "@" + domain)
  {
    DottedNameChars(domain);
    LowerCharsAreLower(domain);
    ToLowerConcat(lp + "@", domain);
    ToLowerConcat(lp, "@");
    LowerCharsAreLower("@");
  }
}
