/** A way of signing that keeps the law the session results rest on: the law is not empty. */
module SoundCrypto {
  import opened Sessions
  import opened Wrappers

  // Every piece of a token announces each further element with '+' and its end with '.'.

  function MarkText(s: string): string {
    if s == "" then "." else ['+', s[0]] + MarkText(s[1..])
  }

  function MarkTexts(texts: seq<string>): string {
    if texts == [] then "." else "+" + MarkText(texts[0]) + MarkTexts(texts[1..])
  }

  function MarkInt(n: int): string {
    (if n < 0 then "-" else "+") + MarkText(seq(if n < 0 then -n else n, _ => 'x'))
  }

  function Token(c: Claims, t: int): string {
    MarkText(c.userId) + (MarkTexts(c.roles) + (MarkInt(c.version) + (MarkInt(t) + "")))
  }

  lemma {:induction false} MarkTextDecodes(s: string, t: string, after: string, rest: string)
    requires MarkText(s) + after == MarkText(t) + rest
    ensures s == t && after == rest
  {
    var l, r := MarkText(s) + after, MarkText(t) + rest;
    assert l[0] == r[0];
    if s == "" {
      assert l[1..] == after && r[1..] == rest;
    } else {
      assert l[1] == r[1];
      assert l[2..] == MarkText(s[1..]) + after && r[2..] == MarkText(t[1..]) + rest;
      MarkTextDecodes(s[1..], t[1..], after, rest);
    }
  }

  lemma {:induction false} BehindMark(s: seq<string>, after: string)
    ensures var l := MarkTexts(s) + after;
            && l[0] == (if s == [] then '.' else '+')
            && l[1..] == if s == [] then after else MarkText(s[0]) + (MarkTexts(s[1..]) + after)
  {}

  lemma {:induction false} MarkTextsDecodes(s: seq<string>, t: seq<string>, after: string, rest: string)
    requires MarkTexts(s) + after == MarkTexts(t) + rest
    ensures s == t && after == rest
  {
    BehindMark(s, after);
    BehindMark(t, rest);
    if s != [] {
      MarkTextDecodes(s[0], t[0], MarkTexts(s[1..]) + after, MarkTexts(t[1..]) + rest);
      MarkTextsDecodes(s[1..], t[1..], after, rest);
    }
  }

  lemma {:induction false} MarkIntDecodes(m: int, n: int, after: string, rest: string)
    requires MarkInt(m) + after == MarkInt(n) + rest
    ensures m == n && after == rest
  {
    var l, r := MarkInt(m) + after, MarkInt(n) + rest;
    assert l[0] == r[0];
    var s, t := seq(if m < 0 then -m else m, _ => 'x'), seq(if n < 0 then -n else n, _ => 'x');
    assert l[1..] == MarkText(s) + after && r[1..] == MarkText(t) + rest;
    MarkTextDecodes(s, t, after, rest);
    assert |s| == |t|;
  }

  lemma {:induction false} TokenInjective(c: Claims, t: int, d: Claims, u: int)
    requires Token(c, t) == Token(d, u)
    ensures c == d && t == u
  {
    MarkTextDecodes(c.userId, d.userId, MarkTexts(c.roles) + (MarkInt(c.version) + (MarkInt(t) + "")),
                    MarkTexts(d.roles) + (MarkInt(d.version) + (MarkInt(u) + "")));
    MarkTextsDecodes(c.roles, d.roles, MarkInt(c.version) + (MarkInt(t) + ""), MarkInt(d.version) + (MarkInt(u) + ""));
    MarkIntDecodes(c.version, d.version, MarkInt(t) + "", MarkInt(u) + "");
    MarkIntDecodes(t, u, "", "");
  }

  /** What a token says while it is in force. */
  ghost function Read(token: string, now: int): Option<Claims> {
    if c, t :| Token(c, t) == token && t <= now < t + ACCESS_TTL then Some(c) else None
  }

  lemma {:induction false} ReadUndoesToken(c: Claims, t: int, now: int)
    ensures Read(Token(c, t), now) == if t <= now < t + ACCESS_TTL then Some(c) else None
  {
    forall d, u | Token(d, u) == Token(c, t) ensures d == c && u == t {
      TokenInjective(d, u, c, t);
    }
  }

  /** Whatever the password check is, there is a sound way of signing beside it. */
  lemma {:induction false} SoundCryptoExists(matches: (string, string) -> bool) returns (crypto: Crypto)
    ensures crypto.Sound() && crypto.matches == matches
  {
    crypto := Crypto(matches, (c, t) => Token(c, t), (token, now) => Read(token, now));
    forall c, t, now
      ensures crypto.verify(crypto.sign(c, t), now) == if t <= now < t + ACCESS_TTL then Some(c) else None
    {
      ReadUndoesToken(c, t, now);
    }
  }
}
