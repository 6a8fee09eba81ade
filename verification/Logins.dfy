/** A relay's login as two fields, as the one text the compiler prints, and as Postfix takes that
    text apart again. */
module Logins {
  import opened Text

  /** What a relay row holds and the relay test sends: the two parts of a login. */
  datatype Login = Login(username: string, password: string)

  /** The value printed for a login. */
  function Joined(l: Login): string {
    l.username + ":" + l.password
  }

  /** Postfix cuts a value at its first colon. */
  function SplitLogin(text: string): Login {
    var i := IndexOf(text, ':');
    Login(text[..i], if i < |text| then text[i + 1..] else "")
  }

  /** What Postfix makes of a printed login: it trims the value before cutting it. */
  function AsRead(l: Login): Login {
    SplitLogin(TrimSpace(Joined(l)))
  }

  /** No blank before the user name or after the password, and no colon in the user name. */
  predicate Plain(l: Login) {
    && (l.username == "" || !IsSpace(l.username[0]))
    && (l.password == "" || !IsSpace(l.password[|l.password| - 1]))
    && ':' !in l.username
  }

  lemma SplitThenJoin(text: string)
    requires ':' in text
    ensures Joined(SplitLogin(text)) == text && ':' !in SplitLogin(text).username
  {
  }

  lemma JoinThenSplit(l: Login)
    requires ':' !in l.username
    ensures SplitLogin(Joined(l)) == l
  {
    assert Joined(l) == l.username + [':'] + l.password;
    IndexOfAppend(l.username, ':', l.password);
  }

  lemma JoinedEnds(l: Login)
    ensures ':' in Joined(l)
    ensures Trimmed(Joined(l)) <==>
            (l.username == "" || !IsSpace(l.username[0])) && (l.password == "" || !IsSpace(l.password[|l.password| - 1]))
  {
    var text := Joined(l);
    assert text[|l.username|] == ':';
    assert text[0] == if l.username == "" then ':' else l.username[0];
    assert text[|text| - 1] == if l.password == "" then ':' else l.password[|l.password| - 1];
  }

  /** A login is read as it is exactly if it is plain; what is read always is. */
  lemma PlainIsRead(l: Login)
    ensures AsRead(l) == l <==> Plain(l)
    ensures Plain(AsRead(l))
  {
    var text := TrimSpace(Joined(l));
    JoinedEnds(l);
    TrimSpaceKeeps(Joined(l), ':');
    TrimSpaceTrims(Joined(l));
    SplitThenJoin(text);
    JoinedEnds(SplitLogin(text));
    if Plain(l) {
      TrimSpaceFixes(Joined(l));
      JoinThenSplit(l);
    }
  }

  /** The second user name goes on, after a colon, with what begins the first password. */
  predicate Shifted(a: Login, b: Login) {
    var n := |a.username|;
    n < |b.username| && b.username[..n + 1] == a.username + ":" && a.password == b.username[n + 1..] + ":" + b.password
  }

  lemma ShiftedIsAlike(a: Login, b: Login)
    requires Shifted(a, b)
    ensures Joined(a) == Joined(b) && a != b && ':' in b.username
  {
    var n := |a.username|;
    assert b.username == b.username[..n + 1] + b.username[n + 1..];
    assert b.username[n] == b.username[..n + 1][n] == ':';
  }

  lemma AlikeIsShifted(a: Login, b: Login)
    requires Joined(a) == Joined(b) && |a.username| < |b.username|
    ensures Shifted(a, b)
  {
    var n := |a.username|;
    assert b.username[..n + 1] == Joined(b)[..n + 1] == Joined(a)[..n + 1];
    assert a.password == Joined(a)[n + 1..] == Joined(b)[n + 1..];
  }

  /** Joined, different logins are told apart unless one user name runs on into the other password. */
  lemma JoinedAlike(a: Login, b: Login)
    ensures Joined(a) == Joined(b) <==> a == b || Shifted(a, b) || Shifted(b, a)
  {
    if Shifted(a, b) {
      ShiftedIsAlike(a, b);
    } else if Shifted(b, a) {
      ShiftedIsAlike(b, a);
    } else if Joined(a) == Joined(b) {
      if |a.username| == |b.username| {
        assert a.username == Joined(a)[..|a.username|];
        assert a.password == Joined(a)[|a.username| + 1..];
      } else if |a.username| < |b.username| {
        AlikeIsShifted(a, b);
      } else {
        AlikeIsShifted(b, a);
      }
    }
  }
}
