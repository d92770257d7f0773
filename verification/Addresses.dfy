/** Mail addresses: case folding of domains, syntax checks, and mailbox identity. */
module Addresses {
  import opened Options
  import opened Text

  // ---------------------------------------------------------------- letter case

  function Lower(c: char): char { if 'A' <= c <= 'Z' then (c as int + 32) as char else c }

  function Fold(s: string): (r: string)
    ensures |r| == |s| && forall k :: 0 <= k < |s| ==> r[k] == Lower(s[k])
  {
    seq(|s|, k requires 0 <= k < |s| => Lower(s[k]))
  }

  lemma FoldTwice(s: string)
    ensures Fold(Fold(s)) == Fold(s)
  {
  }

  // ---------------------------------------------------------------- domains

  predicate AlphaNumeric(c: char) { 'a' <= c <= 'z' || 'A' <= c <= 'Z' || '0' <= c <= '9' }

  /** The parts between dots. */
  function Labels(s: string): (r: seq<string>)
    ensures r != []
  {
    if s == [] then [""]
    else
      var rest := Labels(s[1..]);
      if s[0] == '.' then [""] + rest else [[s[0]] + rest[0]] + rest[1..]
  }

  /** The labels with a dot between them. */
  function Dotted(labels: seq<string>): string {
    if labels == [] then "" else if |labels| == 1 then labels[0] else labels[0] + "." + Dotted(labels[1..])
  }

  /** Splitting loses nothing, and no label holds a dot. */
  lemma {:induction false} LabelsRoundTrip(s: string)
    ensures Dotted(Labels(s)) == s && forall k :: 0 <= k < |Labels(s)| ==> '.' !in Labels(s)[k]
  {
    if s != [] {
      var rest := Labels(s[1..]);
      LabelsRoundTrip(s[1..]);
      assert s == [s[0]] + s[1..];
      if s[0] == '.' {
        assert Labels(s)[1..] == rest;
        assert Dotted(Labels(s)) == "" + "." + Dotted(rest);
      } else {
        assert Labels(s)[1..] == rest[1..];
        assert Dotted(Labels(s)) == [s[0]] + Dotted(rest);
      }
    }
  }

  predicate ValidLabel(l: string) {
    && l != [] && |l| <= 63 && l[0] != '-' && l[|l| - 1] != '-'
    && forall k :: 0 <= k < |l| ==> AlphaNumeric(l[k]) || l[k] == '-'
  }

  predicate ValidDomain(s: string) {
    s != [] && |s| <= 253 && forall k :: 0 <= k < |Labels(s)| ==> ValidLabel(Labels(s)[k])
  }

  lemma {:induction false} LabelsOfLabel(l: string)
    requires '.' !in l
    ensures Labels(l) == [l]
  {
    if l != [] {
      assert l == [l[0]] + l[1..];
      LabelsOfLabel(l[1..]);
    }
  }

  lemma {:induction false} LabelsSplitAtDot(l: string, rest: string)
    requires '.' !in l
    ensures Labels(l + "." + rest) == [l] + Labels(rest)
  {
    var s := l + "." + rest;
    if l == [] {
      assert s[1..] == rest && s[0] == '.';
    } else {
      assert s[0] == l[0] && s[1..] == l[1..] + "." + rest;
      assert l == [l[0]] + l[1..];
      LabelsSplitAtDot(l[1..], rest);
    }
  }

  /** Joining labels without dots is the inverse of splitting. */
  lemma {:induction false} DottedRoundTrip(labels: seq<string>)
    requires labels != [] && forall k :: 0 <= k < |labels| ==> '.' !in labels[k]
    ensures Labels(Dotted(labels)) == labels
  {
    if |labels| == 1 {
      LabelsOfLabel(labels[0]);
    } else {
      DottedRoundTrip(labels[1..]);
      LabelsSplitAtDot(labels[0], Dotted(labels[1..]));
      assert labels == [labels[0]] + labels[1..];
    }
  }

  /** Letters and digits at both ends, hyphens only inside, 1 to 63 characters. */
  predicate HostLabel(l: string) {
    && 1 <= |l| <= 63 && AlphaNumeric(l[0]) && AlphaNumeric(l[|l| - 1])
    && forall c :: c in l ==> AlphaNumeric(c) || c == '-'
  }

  lemma LabelMeans(l: string)
    ensures ValidLabel(l) <==> HostLabel(l)
  {
    assert forall k :: 0 <= k < |l| ==> l[k] in l;
  }

  /** A valid domain is 1 to 253 characters that are host labels joined by dots. */
  lemma DomainMeans(s: string)
    ensures ValidDomain(s) <==>
              1 <= |s| <= 253
              && exists labels :: labels != [] && s == Dotted(labels) && forall k :: 0 <= k < |labels| ==> HostLabel(labels[k])
  {
    LabelsRoundTrip(s);
    forall k | 0 <= k < |Labels(s)| ensures ValidLabel(Labels(s)[k]) <==> HostLabel(Labels(s)[k]) {
      LabelMeans(Labels(s)[k]);
    }
    forall labels | labels != [] && s == Dotted(labels) && forall k :: 0 <= k < |labels| ==> HostLabel(labels[k])
      ensures Labels(s) == labels
    {
      forall k | 0 <= k < |labels| ensures '.' !in labels[k] {
        assert forall c :: c in labels[k] ==> c != '.';
      }
      DottedRoundTrip(labels);
    }
  }

  ghost predicate FoldsTo(labels: seq<string>, folded: seq<string>) {
    |folded| == |labels| && forall k :: 0 <= k < |labels| ==> folded[k] == Fold(labels[k])
  }

  lemma FoldCons(c: char, l: string)
    ensures Fold([c] + l) == [Lower(c)] + Fold(l)
  {
  }

  lemma FoldsCons(x: string, y: string, labels: seq<string>, folded: seq<string>)
    requires FoldsTo(labels, folded) && y == Fold(x)
    ensures FoldsTo([x] + labels, [y] + folded)
  {
  }

  lemma {:induction false} LabelsFold(s: string)
    ensures FoldsTo(Labels(s), Labels(Fold(s)))
  {
    if s != [] {
      LabelsFold(s[1..]);
      assert Fold(s)[1..] == Fold(s[1..]) && Fold(s)[0] == Lower(s[0]);
      var rest, folded := Labels(s[1..]), Labels(Fold(s[1..]));
      if s[0] == '.' {
        FoldsCons("", "", rest, folded);
      } else {
        FoldCons(s[0], rest[0]);
        FoldsCons([s[0]] + rest[0], [Lower(s[0])] + folded[0], rest[1..], folded[1..]);
      }
    }
  }

  lemma LabelFold(l: string)
    ensures ValidLabel(Fold(l)) <==> ValidLabel(l)
  {
    assert forall c: char :: AlphaNumeric(Lower(c)) == AlphaNumeric(c);
    assert forall c: char :: (Lower(c) == '-') == (c == '-');
    assert forall k :: 0 <= k < |l| ==> Fold(l)[k] == Lower(l[k]);
  }

  lemma DomainFold(s: string)
    ensures ValidDomain(Fold(s)) <==> ValidDomain(s)
  {
    LabelsFold(s);
    forall k | 0 <= k < |Labels(s)| ensures ValidLabel(Labels(Fold(s))[k]) <==> ValidLabel(Labels(s)[k]) {
      LabelFold(Labels(s)[k]);
    }
  }

  // ---------------------------------------------------------------- addresses

  predicate Printable(c: char) { 32 <= c as int <= 126 }

  /** Printable characters without bare quotes; a backslash takes the next character literally. */
  predicate QuotedText(s: string) {
    if s == [] then true
    else if s[0] == '\\' then |s| >= 2 && Printable(s[1]) && QuotedText(s[2..])
    else Printable(s[0]) && s[0] != '"' && QuotedText(s[1..])
  }

  /** The scan with its two flags recognises exactly the quoted texts. */
  method ScanQuoted(s: string) returns (ok: bool)
    ensures ok == QuotedText(s)
  {
    var escaped, valid := false, true;
    for i := 0 to |s|
      invariant escaped ==> i > 0 && s[i - 1] == '\\'
      invariant QuotedText(s) == (valid && QuotedText(s[if escaped then i - 1 else i..]))
    {
      if escaped {
        assert s[i - 1..][2..] == s[i + 1..];
        valid := valid && Printable(s[i]);
        escaped := false;
      } else if s[i] == '\\' {
        escaped := true;
      } else {
        assert s[i..][1..] == s[i + 1..];
        valid := valid && Printable(s[i]) && s[i] != '"';
      }
    }
    ok := valid && !escaped;
  }

  const ATOM_MARKS := "!#$%&'*+-/=?^_`{|}~."

  predicate Quoted(local: string) { |local| >= 2 && local[0] == '"' && local[|local| - 1] == '"' }

  predicate DotAtom(local: string) {
    && (local == [] || (local[0] != '.' && local[|local| - 1] != '.'))
    && !TwoDots(local)
    && (forall k :: 0 <= k < |local| ==> AlphaNumeric(local[k]) || local[k] in ATOM_MARKS)
  }

  predicate ValidLocal(local: string) {
    0 < |local| <= 64 && if Quoted(local) then QuotedText(local[1..|local| - 1]) else DotAtom(local)
  }

  predicate ValidAddress(s: string) {
    Split(s).Some? && |s| <= 254 && ValidLocal(Split(s).value.local) && ValidDomain(Split(s).value.domain)
  }

  lemma AtomCharacters(c: char)
    ensures c in ATOM_MARKS <==> c in "!#$%&'*+-/=?^_`{|}~" || c == '.'
  {
    assert ATOM_MARKS == "!#$%&'*+-/=?^_`{|}~" + ".";
  }

  predicate TwoDots(s: string) { exists k :: 0 <= k < |s| - 1 && s[k] == '.' && s[k + 1] == '.' }

  lemma TwoDotsMean(s: string)
    ensures TwoDots(s) <==> exists a, b :: s == a + (".." + b)
  {
    if TwoDots(s) {
      var k :| 0 <= k < |s| - 1 && s[k] == '.' && s[k + 1] == '.';
      assert s == s[..k] + (".." + s[k + 2..]);
    }
    forall a, b | s == a + (".." + b) ensures TwoDots(s) {
      assert s[|a|] == '.' && s[|a| + 1] == '.';
    }
  }

  /** Unquoted local parts are atom characters and dots, no dot at an end and no two in a row. */
  lemma DotAtomMeans(local: string)
    requires local != []
    ensures DotAtom(local) <==>
              && (forall c :: c in local ==> AlphaNumeric(c) || c in "!#$%&'*+-/=?^_`{|}~" || c == '.')
              && local[0] != '.' && local[|local| - 1] != '.'
              && !exists a, b :: local == a + (".." + b)
  {
    TwoDotsMean(local);
    forall c ensures c in ATOM_MARKS <==> c in "!#$%&'*+-/=?^_`{|}~" || c == '.' {
      AtomCharacters(c);
    }
    assert forall k :: 0 <= k < |local| ==> local[k] in local;
  }

  /** An address is a local part of 1 to 64 characters and a valid domain around the last '@', 254 in all. */
  lemma AddressMeans(local: string, domain: string)
    requires '@' !in domain
    ensures ValidAddress(local + "@" + domain) <==>
              && 1 <= |local| <= 64 && |local| + 1 + |domain| <= 254 && ValidDomain(domain)
              && (if |local| >= 2 && local[0] == '"' == local[|local| - 1]
                  then QuotedText(local[1..|local| - 1]) else DotAtom(local))
  {
    SplitJoin(Mailbox(local, domain));
  }

  // ---------------------------------------------------------------- identity

  /** Same local part, same domain up to letter case. */
  predicate SameMailbox(a: string, b: string) {
    var x, y := Split(a), Split(b);
    x.Some? && y.Some? && x.value.local == y.value.local && Fold(x.value.domain) == Fold(y.value.domain)
  }

  /** The spelling with a lower-case domain. */
  function Key(a: string): string {
    var x := Split(a);
    if x.Some? then x.value.local + "@" + Fold(x.value.domain) else a
  }

  lemma FoldKeepsAt(s: string)
    ensures '@' in Fold(s) <==> '@' in s
  {
    assert forall c: char :: (Lower(c) == '@') == (c == '@');
    assert forall k :: 0 <= k < |s| ==> Fold(s)[k] == Lower(s[k]);
    if '@' in s {
      var k :| 0 <= k < |s| && s[k] == '@';
      assert Fold(s)[k] == '@';
    }
  }

  lemma SplitKey(a: string)
    requires Split(a).Some?
    ensures Split(Key(a)) == Some(Mailbox(Split(a).value.local, Fold(Split(a).value.domain)))
  {
    var x := Split(a).value;
    FoldKeepsAt(x.domain);
    SplitJoin(Mailbox(x.local, Fold(x.domain)));
  }

  /** Two addresses are the same mailbox exactly when their keys agree. */
  lemma KeysIdentify(a: string, b: string)
    requires Split(a).Some? && Split(b).Some?
    ensures SameMailbox(a, b) <==> Key(a) == Key(b)
  {
    SplitKey(a);
    SplitKey(b);
  }

  /** Letter case in the domain does not affect validity. */
  lemma SameMailboxSameValidity(a: string, b: string)
    requires SameMailbox(a, b)
    ensures ValidAddress(a) <==> ValidAddress(b)
  {
    var x, y := Split(a).value, Split(b).value;
    DomainFold(x.domain);
    DomainFold(y.domain);
    assert |x.domain| == |Fold(x.domain)| == |y.domain|;
  }
}
