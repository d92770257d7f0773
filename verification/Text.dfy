/** Strings as the policies compare them: lexicographic order and the last '@'. */
module Text {
  import opened Options

  /** Lexicographic order by code point, which is the byte order of UTF-8. */
  predicate StrLe(a: string, b: string) {
    if a == [] then true
    else if b == [] then false
    else if a[0] != b[0] then a[0] < b[0]
    else StrLe(a[1..], b[1..])
  }

  lemma {:induction false} StrLeTotal(a: string, b: string)
    ensures StrLe(a, b) || StrLe(b, a)
    ensures StrLe(a, b) && StrLe(b, a) ==> a == b
  {
    if a != [] && b != [] && a[0] == b[0] {
      StrLeTotal(a[1..], b[1..]);
      assert a == [a[0]] + a[1..] && b == [b[0]] + b[1..];
    }
  }

  lemma {:induction false} StrLeTransitive(a: string, b: string, c: string)
    requires StrLe(a, b) && StrLe(b, c)
    ensures StrLe(a, c)
  {
    if a != [] && b != [] && c != [] && a[0] == b[0] && b[0] == c[0] {
      StrLeTransitive(a[1..], b[1..], c[1..]);
    }
  }

  /** b continues a, or is larger at the first position where they differ. */
  ghost predicate Lexicographic(a: string, b: string) {
    a <= b || exists k: nat :: k < |a| && k < |b| && a[..k] == b[..k] && a[k] < b[k]
  }

  lemma {:induction false} StrLeMeans(a: string, b: string)
    ensures StrLe(a, b) <==> Lexicographic(a, b)
  {
    if a != [] && b != [] {
      if a[0] == b[0] {
        StrLeMeans(a[1..], b[1..]);
        HeadsAgree(a, b);
      } else if a[0] < b[0] {
        assert a[..0] == b[..0];
      } else {
        forall k: nat | k < |a| && k < |b| && a[..k] == b[..k] ensures k == 0 {
          PrefixHeads(a, b, k);
        }
      }
    }
  }

  lemma PrefixHeads(a: string, b: string, k: nat)
    requires k < |a| && k < |b| && a[..k] == b[..k]
    ensures k == 0 || a[0] == b[0]
  {
    if k > 0 {
      assert a[..k][0] == a[0] && b[..k][0] == b[0];
    }
  }

  lemma HeadsAgree(a: string, b: string)
    requires a != [] && b != [] && a[0] == b[0]
    ensures Lexicographic(a, b) <==> Lexicographic(a[1..], b[1..])
  {
    assert a == [a[0]] + a[1..] && b == [b[0]] + b[1..];
    if !(a <= b) && Lexicographic(a, b) {
      var k: nat :| k < |a| && k < |b| && a[..k] == b[..k] && a[k] < b[k];
      assert k > 0;
      assert a[1..][..k - 1] == a[..k][1..] && b[1..][..k - 1] == b[..k][1..];
      assert a[1..][k - 1] < b[1..][k - 1];
    }
    if !(a[1..] <= b[1..]) && Lexicographic(a[1..], b[1..]) {
      var k: nat :| k < |a| - 1 && k < |b| - 1 && a[1..][..k] == b[1..][..k] && a[1..][k] < b[1..][k];
      assert a[..k + 1] == [a[0]] + a[1..][..k] && b[..k + 1] == [b[0]] + b[1..][..k];
      assert a[k + 1] < b[k + 1];
    }
  }

  /** An address split at its last '@'. */
  datatype Mailbox = Mailbox(local: string, domain: string)

  function Split(s: string): (r: Option<Mailbox>)
    ensures r.Some? ==> s == r.value.local + "@" + r.value.domain && '@' !in r.value.domain
    ensures r.None? ==> '@' !in s
  {
    if s == [] then None
    else
      var init, last := s[..|s| - 1], s[|s| - 1];
      assert s == init + [last];
      if last == '@' then Some(Mailbox(init, []))
      else
        var r := Split(init);
        if r.None? then None
        else
          assert init + [last] == r.value.local + "@" + (r.value.domain + [last]);
          Some(Mailbox(r.value.local, r.value.domain + [last]))
  }

  function Join(m: Mailbox): string { m.local + "@" + m.domain }

  /** Splitting is the inverse of joining when the domain holds no '@'. */
  lemma {:induction false} SplitJoin(m: Mailbox)
    requires '@' !in m.domain
    ensures Split(Join(m)) == Some(m)
    decreases |m.domain|
  {
    var s := Join(m);
    if m.domain == [] {
      assert s[..|s| - 1] == m.local && s[|s| - 1] == '@';
    } else {
      var shorter := Mailbox(m.local, m.domain[..|m.domain| - 1]);
      assert m.domain == shorter.domain + [m.domain[|m.domain| - 1]];
      assert s[..|s| - 1] == Join(shorter) && s[|s| - 1] == m.domain[|m.domain| - 1];
      SplitJoin(shorter);
    }
  }
}
