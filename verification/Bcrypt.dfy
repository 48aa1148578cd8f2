/** What bcrypt makes of a password: its UTF-8 bytes and a NUL, repeated to the 72 bytes that key the cipher.
    The cipher itself is ideal, so a comparison succeeds exactly when these bytes agree. */
module Bcrypt {

  const BCRYPT_LIMIT: nat := 72

  function Utf8Char(c: char): seq<int> {
    var n := c as int;
    var m := n / 64;
    var l := m / 64;
    if n < 0x80 then [n]
    else if n < 0x800 then [0xC0 + m, 0x80 + n % 64]
    else if n < 0x10000 then [0xE0 + l, 0x80 + m % 64, 0x80 + n % 64]
    else [0xF0 + l / 64, 0x80 + l % 64, 0x80 + m % 64, 0x80 + n % 64]
  }

  function Utf8(s: string): seq<int> {
    if s == [] then [] else Utf8Char(s[0]) + Utf8(s[1..])
  }

  /** The first `n` bytes of a key repeated over and over. */
  function Cycle(key: seq<int>, n: nat): (k: seq<int>)
    requires key != []
    ensures |k| == n
    decreases n
  {
    if n <= |key| then key[..n] else key + Cycle(key, n - |key|)
  }

  /** What the cipher is keyed with: the password and a NUL, repeated up to 72 bytes and cut there. */
  function KeyBytes(password: string): seq<int> {
    Cycle(Utf8(password) + [0], BCRYPT_LIMIT)
  }

  /** bcrypt cannot tell the two passwords apart. */
  predicate SameKey(p: string, q: string) {
    KeyBytes(p) == KeyBytes(q)
  }

  /** The length of a character's encoding, by its first byte. */
  function Width(lead: int): nat {
    if lead < 0xC0 then 1 else if lead < 0xE0 then 2 else if lead < 0xF0 then 3 else 4
  }

  lemma LeadTellsWidth(c: char)
    ensures Utf8Char(c) != [] && |Utf8Char(c)| == Width(Utf8Char(c)[0])
    ensures |Utf8Char(c)| == if c as int < 0x80 then 1 else if c as int < 0x800 then 2 else if c as int < 0x10000 then 3 else 4
  {
  }

  lemma SameBytesSameChar(c: char, d: char)
    requires Utf8Char(c) == Utf8Char(d)
    ensures c == d
  {
    Decodes(c);
    Decodes(d);
    hide Utf8Char;
    assert c as int == d as int;
  }

  lemma Decodes(c: char)
    ensures CodePoint(Utf8Char(c)) == c as int
  {
  }

  function CodePoint(b: seq<int>): int {
    if |b| == 1 then b[0]
    else if |b| == 2 then (b[0] - 0xC0) * 64 + b[1] - 0x80
    else if |b| == 3 then ((b[0] - 0xE0) * 64 + b[1] - 0x80) * 64 + b[2] - 0x80
    else if |b| == 4 then (((b[0] - 0xF0) * 64 + b[1] - 0x80) * 64 + b[2] - 0x80) * 64 + b[3] - 0x80
    else 0
  }

  lemma FirstCharAgrees(c: char, d: char, x: seq<int>, y: seq<int>)
    requires Utf8Char(c) + x == Utf8Char(d) + y
    ensures c == d && x == y
  {
    LeadTellsWidth(c);
    LeadTellsWidth(d);
    hide Utf8Char;
    var s, t := Utf8Char(c) + x, Utf8Char(d) + y;
    assert Utf8Char(c)[0] == s[0] == t[0] == Utf8Char(d)[0];
    var n := |Utf8Char(c)|;
    assert Utf8Char(c) == s[..n] && Utf8Char(d) == t[..n];
    assert x == s[n..] && y == t[n..];
    SameBytesSameChar(c, d);
  }

  lemma {:induction false} Utf8Injective(s: string, t: string)
    requires Utf8(s) == Utf8(t)
    ensures s == t
  {
    hide Utf8Char;
    if s != [] {
      LeadTellsWidth(s[0]);
    }
    if t != [] {
      LeadTellsWidth(t[0]);
    }
    if s != [] && t != [] {
      FirstCharAgrees(s[0], t[0], Utf8(s[1..]), Utf8(t[1..]));
      Utf8Injective(s[1..], t[1..]);
    }
  }

  lemma NulFreeChar(c: char)
    requires c != '\0'
    ensures 0 !in Utf8Char(c)
  {
  }

  predicate NulFree(s: string) {
    '\0' !in s
  }

  lemma {:induction false} NulFreeBytes(s: string)
    requires NulFree(s)
    ensures 0 !in Utf8(s)
  {
    hide Utf8Char;
    if s != [] {
      NulFreeChar(s[0]);
      NulFreeBytes(s[1..]);
    }
  }

  function Cut(bytes: seq<int>): seq<int> {
    if |bytes| <= 72 then bytes else bytes[..72]
  }

  /** The key of a password without NULs is its bytes up to the limit, and a NUL behind them if there is room. */
  lemma KeyBegins(p: string)
    ensures var b, k := Utf8(p), KeyBytes(p);
            k[..|Cut(b)|] == Cut(b) && (|Cut(b)| < BCRYPT_LIMIT ==> k[|Cut(b)|] == 0)
  {
  }

  /** Passwords without NULs are the same to bcrypt exactly when their first 72 bytes are. */
  lemma SameKeyIffSameCut(p: string, q: string)
    requires NulFree(p) && NulFree(q)
    ensures SameKey(p, q) <==> Cut(Utf8(p)) == Cut(Utf8(q))
  {
    NulFreeBytes(p);
    NulFreeBytes(q);
    var a, b := Cut(Utf8(p)), Cut(Utf8(q));
    KeyBegins(p);
    KeyBegins(q);
    if a == b && |a| < BCRYPT_LIMIT {
      assert Utf8(p) == Utf8(q);
    } else if a == b {
      assert KeyBytes(p) == a && KeyBytes(q) == b;
    }
  }

  /** So the check is exact on passwords without NULs of at most 72 bytes. */
  lemma SameKeyIffEqual(p: string, q: string)
    requires NulFree(p) && NulFree(q) && |Utf8(p)| <= 72 && |Utf8(q)| <= 72
    ensures SameKey(p, q) <==> p == q
  {
    SameKeyIffSameCut(p, q);
    if Utf8(p) == Utf8(q) {
      Utf8Injective(p, q);
    }
  }

  lemma {:induction false} CycleTwice(key: seq<int>, n: nat)
    requires key != []
    ensures Cycle(key + key, n) == Cycle(key, n)
    decreases n
  {
    if n > |key| {
      assert Cycle(key, n) == key + Cycle(key, n - |key|);
      if n > 2 * |key| {
        CycleTwice(key, n - 2 * |key|);
        assert Cycle(key + key, n) == key + key + Cycle(key, n - 2 * |key|);
      } else {
        assert (key + key)[..n] == key + key[..n - |key|];
      }
    }
  }

  lemma {:induction false} Utf8Concat(s: string, t: string)
    ensures Utf8(s + t) == Utf8(s) + Utf8(t)
  {
    if s == [] {
      assert s + t == t && Utf8(s) == [];
    } else {
      Utf8Unfolds(s);
      Utf8Unfolds(s + t);
      assert (s + t)[1..] == s[1..] + t;
      hide Utf8, Utf8Char;
      Utf8Concat(s[1..], t);
      Reassociate(Utf8Char(s[0]), Utf8(s[1..]), Utf8(t));
    }
  }

  lemma Utf8Unfolds(s: string)
    requires s != []
    ensures Utf8(s) == Utf8Char(s[0]) + Utf8(s[1..])
  {
  }

  lemma Reassociate(a: seq<int>, b: seq<int>, c: seq<int>)
    ensures a + (b + c) == a + b + c
  {
  }

  /** Outside of those, it is not: every password has another one that bcrypt takes for it. */
  lemma EveryPasswordHasATwin(p: string)
    ensures SameKey(p, p + "\0" + p) && p + "\0" + p != p
  {
    var key := Utf8(p) + [0];
    Utf8Concat(p + "\0", p);
    Utf8Concat(p, "\0");
    assert "\0"[1..] == "" && Utf8("\0") == [0];
    assert Utf8(p + "\0" + p) + [0] == key + key;
    CycleTwice(key, BCRYPT_LIMIT);
    assert |p + "\0" + p| > |p|;
  }
}
