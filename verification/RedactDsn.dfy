/**
 * Redaction of PostgreSQL connection URLs in command-line error output.
 *
 * The program rewrites the message in place until no URL scheme is left.  The
 * message can grow while it does so, and a later rewrite can cut a placeholder
 * written by an earlier one, so neither termination nor the final text is
 * obvious.  `Redacted` gives the final text in one pass over the words of the
 * original message, and the loop is proved to compute exactly that.
 */
module RedactDsn {
  import opened Words

  /** `pattern` occurs in `s` at position `i`. */
  predicate At(s: string, pattern: string, i: int) {
    0 <= i && i + |pattern| <= |s| && forall k :: 0 <= k < |pattern| ==> s[i + k] == pattern[k]
  }

  ghost predicate Occurs(s: string, pattern: string) {
    exists i :: At(s, pattern, i)
  }

  /** Reading one character of an occurrence. */
  lemma CharAt(s: string, pattern: string, i: int, j: int)
    ensures At(s, pattern, i) && i <= j < i + |pattern| ==> s[j] == pattern[j - i]
  {
    assert At(s, pattern, i) && i <= j < i + |pattern| ==> s[i + (j - i)] == pattern[j - i];
  }

  /** An occurrence in a part of a text is an occurrence in the text. */
  lemma AtInPart(s: string, from: nat, to: nat, pattern: string, i: int)
    requires from <= to <= |s|
    ensures At(s[from..to], pattern, i) <==> 0 <= i && i + |pattern| <= to - from && At(s, pattern, from + i)
  {
    var part := s[from..to];
    if 0 <= i && i + |pattern| <= |part| {
      assert forall k {:trigger pattern[k]} :: 0 <= k < |pattern| ==> part[i + k] == s[from + i + k];
    }
  }

  /** The first occurrence of `pattern`, or -1. */
  method Index(s: string, pattern: string) returns (index: int)
    ensures index < 0 ==> !Occurs(s, pattern)
    ensures index >= 0 ==> At(s, pattern, index) && forall i :: i < index ==> !At(s, pattern, i)
  {
    index := 0;
    while index + |pattern| <= |s|
      invariant 0 <= index
      invariant forall i :: i < index ==> !At(s, pattern, i)
    {
      if At(s, pattern, index) {
        return;
      }
      index := index + 1;
    }
    index := -1;
  }

  /** The two URL schemes, and the placeholder as the words around its space. */
  datatype Redactor = Redactor(long: string, short: string, head: string, tail: string) {

    /** What the proofs use about the four texts. */
    ghost predicate Valid() {
      && Scheme(long) && Scheme(short)
      && (exists k :: 0 <= k < |long| && k < |short| && long[k] != short[k])
      && |head| > 0 && head[0] == '[' && Inert(head)
      && |tail| > 0 && tail[|tail| - 1] == ']' && Inert(tail)
    }

    /** A scheme has `p` in front and nowhere else, and no bracket. */
    static ghost predicate Scheme(p: string) {
      && NoDelimiter(p)
      && |p| > 0 && p[0] == 'p'
      && forall k :: 0 < k < |p| ==> p[k] != 'p' && p[k] != '[' && p[k] != ']'
    }

    static ghost predicate Inert(s: string) {
      NoDelimiter(s) && forall k :: 0 <= k < |s| ==> s[k] != 'p'
    }

    function Placeholder(): string {
      head + [' '] + tail
    }

    predicate SchemeAt(s: string, i: int) {
      At(s, long, i) || At(s, short, i)
    }

    /** Neither URL scheme occurs anywhere in `s`. */
    ghost predicate Clean(s: string) {
      forall i :: !SchemeAt(s, i)
    }

    /** The first position of either scheme in `w`, or `|w|`. */
    ghost function FirstScheme(w: string): (i: nat)
      ensures i <= |w|
      ensures forall j :: 0 <= j < i ==> !SchemeAt(w, j)
      ensures i < |w| ==> SchemeAt(w, i)
    {
      FirstSchemeFrom(w, 0)
    }

    ghost function FirstSchemeFrom(w: string, from: nat): (i: nat)
      requires from <= |w|
      ensures from <= i <= |w|
      ensures forall j :: from <= j < i ==> !SchemeAt(w, j)
      ensures i < |w| ==> SchemeAt(w, i)
      decreases |w| - from
    {
      if from == |w| || SchemeAt(w, from) then from else FirstSchemeFrom(w, from + 1)
    }

    /**
     * What one word becomes: everything from its first URL on is replaced.  A word
     * that holds a short URL followed by a long one is rewritten twice, and the
     * second rewrite cuts the first placeholder at its space.
     */
    ghost function RedactedWord(w: string): string {
      var i := FirstScheme(w);
      if i == |w| then w
      else if At(w, short, i) && Occurs(w, long) then w[..i] + Placeholder() + [' '] + tail
      else w[..i] + Placeholder()
    }

    /** The final text of a message: every word redacted on its own. */
    ghost function Redacted(s: string): string {
      MapWords(RedactedWord, s)
    }

    /** A word without a URL stays. */
    lemma CleanWord(w: string)
      requires Clean(w)
      ensures RedactedWord(w) == w
    {
      var i := FirstScheme(w);
      assert !SchemeAt(w, i);
    }

    /** A message without a URL is returned as it is, so redaction is idempotent. */
    lemma CleanIsUnchanged(s: string)
      requires Clean(s)
      ensures Redacted(s) == s
    {
      forall a, b | 0 <= a <= b <= |s| ensures RedactedWord(s[a..b]) == s[a..b] {
        forall i ensures !SchemeAt(s[a..b], i) {
          AtInPart(s, a, b, long, i);
          AtInPart(s, a, b, short, i);
          assert !SchemeAt(s, a + i);
        }
        CleanWord(s[a..b]);
      }
      MapKeeps(RedactedWord, s);
    }

    // -------------------------------------------------------------------
    // One rewrite keeps the final text
    // -------------------------------------------------------------------

    /** The loop looks for the long scheme first. */
    ghost predicate FirstTarget(s: string, k: nat) {
      if Occurs(s, long)
      then At(s, long, k) && forall i :: i < k ==> !At(s, long, i)
      else At(s, short, k) && forall i :: i < k ==> !At(s, short, i)
    }

    /** What one turn of the loop rewrites: a first scheme, up to the end of its word. */
    ghost predicate RewriteSite(msg: string, index: nat, end: nat) {
      && index < end <= |msg|
      && (forall i :: index < i < end ==> !Delimiter(msg[i]))
      && (end < |msg| ==> Delimiter(msg[end]))
      && FirstTarget(msg, index)
    }

    /** Two occurrences never overlap. */
    lemma NoOverlap(s: string, p: string, i: int, q: string, j: int)
      requires Scheme(p) && Scheme(q) && i < j && At(s, p, i) && At(s, q, j)
      ensures i + |p| <= j
    {
      CharAt(s, q, j, j);
      CharAt(s, p, i, j);
    }

    /** Cutting a word and appending the head of the placeholder leaves the schemes before the cut. */
    lemma CutWord(w: string, k: nat, p: string, i: int)
      requires Valid() && k <= |w| && (p == long || p == short)
      requires k < |w| ==> SchemeAt(w, k)
      ensures At(w[..k] + head, p, i) <==> i < k && At(w, p, i)
    {
      var cut := w[..k] + head;
      CharAt(cut, p, i, i);
      CharAt(cut, p, i, k);
      if i < k < |w| && At(w, p, i) {
        NoOverlap(w, p, i, if At(w, long, k) then long else short, k);
      }
      assert cut[0..k] == w[0..k];
      AtInPart(cut, 0, k, p, i);
      AtInPart(w, 0, k, p, i);
    }

    /** The two schemes differ, so only one of them can stand at a position. */
    lemma NotBoth(s: string, i: int)
      requires Valid()
      ensures !(At(s, long, i) && At(s, short, i))
    {
      var k :| 0 <= k < |long| && k < |short| && long[k] != short[k];
      CharAt(s, long, i, i + k);
      CharAt(s, short, i, i + k);
    }

    /** One rewrite inside a word, seen from the final text of that word. */
    lemma RewriteInWord(w: string, k: nat)
      requires Valid() && k < |w| && FirstTarget(w, k)
      ensures RedactedWord(w) == RedactedWord(w[..k] + head) + [' '] + tail
    {
      var cut := w[..k] + head;
      forall i ensures At(cut, long, i) <==> i < k && At(w, long, i)
               ensures At(cut, short, i) <==> i < k && At(w, short, i)
      {
        CutWord(w, k, long, i);
        CutWord(w, k, short, i);
      }
      assert SchemeAt(w, k);
      var i := FirstScheme(w);
      assert i <= k;
      if i < k {
        assert SchemeAt(cut, i);
        var c := FirstScheme(cut);
        assert c < i ==> SchemeAt(cut, c) && SchemeAt(w, c);
        assert c == i;
        assert cut[..i] == w[..i];
      } else {
        NotBoth(w, i);
        forall j ensures !SchemeAt(cut, j) {
          assert 0 <= j < k ==> !SchemeAt(w, j);
        }
        CleanWord(cut);
        assert w[..i] + Placeholder() == cut + [' '] + tail;
      }
    }

    /** The scheme at the site lies inside the rewritten stretch. */
    lemma SchemeInsideSite(msg: string, index: nat, end: nat, p: string)
      requires RewriteSite(msg, index, end) && Scheme(p) && At(msg, p, index)
      ensures index + |p| <= end && !Delimiter(msg[index])
    {
      CharAt(msg, p, index, index);
      CharAt(msg, p, index, end);
    }

    /** The rewritten stretch ends a word whose first target is the same scheme. */
    lemma WordOfSite(msg: string, index: nat, end: nat, start: nat)
      requires Valid() && RewriteSite(msg, index, end) && start == WordStart(msg, index)
      ensures NoDelimiter(msg[start..end])
      ensures FirstTarget(msg[start..end], index - start)
    {
      var w, k := msg[start..end], index - start;
      var p := if Occurs(msg, long) then long else short;
      SchemeInsideSite(msg, index, end, p);
      forall i ensures At(w, long, i) ==> At(msg, long, start + i)
               ensures At(w, short, i) ==> At(msg, short, start + i)
      {
        AtInPart(msg, start, end, long, i);
        AtInPart(msg, start, end, short, i);
      }
      AtInPart(msg, start, end, p, k);
    }

    lemma TailIsClean()
      requires Valid()
      ensures RedactedWord(tail) == tail
    {
      forall i ensures !SchemeAt(tail, i) {
        CharAt(tail, long, i, i);
        CharAt(tail, short, i, i);
      }
      CleanWord(tail);
    }

    /** What a rewrite means for the word it ends. */
    lemma RewriteInItsWord(msg: string, index: nat, end: nat, start: nat)
      requires Valid() && RewriteSite(msg, index, end) && start == WordStart(msg, index)
      ensures NoDelimiter(msg[start..end])
      ensures RedactedWord(msg[start..end]) == RedactedWord(msg[start..index] + head) + [' '] + tail
    {
      var w, k := msg[start..end], index - start;
      assert NoDelimiter(w) by {
        WordOfSite(msg, index, end, start);
      }
      assert RedactedWord(w) == RedactedWord(w[..k] + head) + [' '] + tail by {
        WordOfSite(msg, index, end, start);
        RewriteInWord(w, k);
      }
      PrefixOfPart(msg, start, index, end);
    }

    /** A rewrite does not change the final text. */
    lemma RewriteKeepsMeaning(msg: string, index: nat, end: nat)
      requires Valid() && RewriteSite(msg, index, end)
      ensures Redacted(msg[..index] + Placeholder() + msg[end..]) == Redacted(msg)
    {
      var start := WordStart(msg, index);
      RewriteInItsWord(msg, index, end, start);
      TailIsClean();
      ReplaceEndOfWord(RedactedWord, msg, start, index, end, head, ' ', tail);
    }

    // -------------------------------------------------------------------
    // Termination: the number of URL schemes, not the length, goes down
    // -------------------------------------------------------------------

    function SchemeCount(s: string): nat {
      if s == [] then 0 else (if SchemeAt(s, 0) then 1 else 0) + SchemeCount(s[1..])
    }

    /** Putting text behind never hides a scheme. */
    lemma {:induction false} CountConcat(a: string, b: string)
      ensures SchemeCount(a + b) >= SchemeCount(a) + SchemeCount(b)
      decreases |a|
    {
      if a == [] {
        assert a + b == b;
      } else {
        CountConcat(a[1..], b);
        assert (a + b)[1..] == a[1..] + b;
        assert SchemeAt(a, 0) ==> SchemeAt(a + b, 0);
      }
    }

    lemma NotAcrossBracket(s: string, k: nat, p: string)
      requires Scheme(p) && k < |s| && (s[k] == '[' || s[k] == ']')
      ensures At(s, p, 0) ==> |p| <= k
    {
      CharAt(s, p, 0, k);
    }

    /** No scheme reaches across a bracket. */
    lemma {:induction false} CountAcrossBracket(a: string, bracket: char, b: string)
      requires Valid() && (bracket == '[' || bracket == ']')
      ensures SchemeCount(a + [bracket] + b) == SchemeCount(a) + SchemeCount(b)
      decreases |a|
    {
      var s := a + [bracket] + b;
      NotAcrossBracket(s, |a|, long);
      NotAcrossBracket(s, |a|, short);
      if a == [] {
        assert s[1..] == b;
      } else {
        assert s[1..] == a[1..] + [bracket] + b;
        CountAcrossBracket(a[1..], bracket, b);
        assert forall i :: 0 <= i < |a| ==> s[i] == a[i];
      }
    }

    lemma {:induction false} CountWithoutP(s: string)
      requires Valid() && forall i :: 0 <= i < |s| ==> s[i] != 'p'
      ensures SchemeCount(s) == 0
    {
      if s != [] {
        CharAt(s, long, 0, 0);
        CharAt(s, short, 0, 0);
        CountWithoutP(s[1..]);
      }
    }

    /** A placeholder adds no scheme, whatever stands on its two sides. */
    lemma CountPlaceholder(before: string, after: string)
      requires Valid()
      ensures SchemeCount(before + Placeholder() + after) == SchemeCount(before) + SchemeCount(after)
    {
      var inner := head[1..] + [' '] + tail[..|tail| - 1];
      CountAcrossBracket(inner, ']', after);
      CountAcrossBracket(before, '[', inner + [']'] + after);
      CountWithoutP(inner);
      PlaceholderShape(before, inner, after);
    }

    lemma PlaceholderShape(before: string, inner: string, after: string)
      requires Valid() && inner == head[1..] + [' '] + tail[..|tail| - 1]
      ensures before + Placeholder() + after == before + ['['] + (inner + [']'] + after)
    {
      assert Placeholder() == ['['] + inner + [']'];
    }

    lemma RewriteRemovesScheme(msg: string, index: nat, end: nat)
      requires Valid() && RewriteSite(msg, index, end)
      ensures SchemeCount(msg[..index] + Placeholder() + msg[end..]) < SchemeCount(msg)
    {
      var before, url, after := msg[..index], msg[index..end], msg[end..];
      CountPlaceholder(before, after);
      var p := if Occurs(msg, long) then long else short;
      SchemeInsideSite(msg, index, end, p);
      AtInPart(msg, index, end, p, 0);
      CountConcat(url, after);
      CountConcat(before, url + after);
      RejoinThree(msg, index, end);
    }

    // -------------------------------------------------------------------
    // The loop
    // -------------------------------------------------------------------

    /** The end of the stretch to rewrite: the next delimiter, or the end of the text. */
    method EndOfWord(msg: string, index: nat) returns (end: nat)
      requires index < |msg|
      ensures index < end <= |msg|
      ensures forall i :: index < i < end ==> !Delimiter(msg[i])
      ensures end < |msg| ==> Delimiter(msg[end])
    {
      end := index + 1;
      while end < |msg| && !Delimiter(msg[end])
        invariant index < end <= |msg|
        invariant forall i :: index < i < end ==> !Delimiter(msg[i])
      {
        end := end + 1;
      }
    }

    method Redact(input: string) returns (msg: string)
      requires Valid()
      ensures Clean(msg)
      ensures msg == Redacted(input)
    {
      msg := input;
      while true
        invariant Redacted(msg) == Redacted(input)
        decreases SchemeCount(msg)
      {
        var index := Index(msg, long);
        if index < 0 {
          index := Index(msg, short);
        }
        if index < 0 {
          CleanIsUnchanged(msg);
          return;
        }
        var end := EndOfWord(msg, index);
        RewriteKeepsMeaning(msg, index, end);
        RewriteRemovesScheme(msg, index, end);
        msg := msg[..index] + Placeholder() + msg[end..];
      }
    }
  }

  const POSTGRES := Redactor("postgresql://", "postgres://", "[DSN", "REDACTED]")

  lemma LongIsScheme()
    ensures Redactor.Scheme("postgresql://")
  {
  }

  lemma ShortIsScheme()
    ensures Redactor.Scheme("postgres://")
  {
  }

  lemma PlaceholderWords()
    ensures Redactor.Inert("[DSN") && Redactor.Inert("REDACTED]")
  {
  }

  lemma PostgresIsValid()
    ensures POSTGRES.Valid()
  {
    LongIsScheme();
    ShortIsScheme();
    PlaceholderWords();
    assert POSTGRES.long[8] == 'q' && POSTGRES.short[8] == ':';
  }

  /** The program: no PostgreSQL URL is left, and the text is the one-pass redaction. */
  method RedactDSN(input: string) returns (msg: string)
    ensures forall i :: !At(msg, "postgres://", i) && !At(msg, "postgresql://", i)
    ensures msg == POSTGRES.Redacted(input)
  {
    PostgresIsValid();
    msg := POSTGRES.Redact(input);
    forall i ensures !At(msg, "postgres://", i) && !At(msg, "postgresql://", i) {
      assert !POSTGRES.SchemeAt(msg, i);
    }
  }

  /** No character of the text ends a URL. */
  ghost predicate Unbroken(s: string) {
    forall i :: 0 <= i < |s| ==> s[i] != ' ' && s[i] != '\n' && s[i] != '"' && s[i] != '\''
  }

  /** The first scheme of the text, of either kind, stands at `k`, and there is no other. */
  ghost predicate OneScheme(s: string, k: nat) {
    && (At(s, "postgres://", k) || At(s, "postgresql://", k))
    && (forall i :: i != k ==> !At(s, "postgres://", i) && !At(s, "postgresql://", i))
  }

  lemma UnbrokenIsWord(s: string)
    ensures NoDelimiter(s) <==> Unbroken(s)
  {
  }

  /**
   * A URL goes from its scheme to the next space, line break or quote: a stretch without
   * any of these is cut at its scheme, query and all.
   */
  lemma UrlIsReplaced(s: string, k: nat)
    requires Unbroken(s) && OneScheme(s, k)
    ensures POSTGRES.Redacted(s) == s[..k] + "[DSN REDACTED]"
  {
    PostgresIsValid();
    UnbrokenIsWord(s);
    assert POSTGRES.SchemeAt(s, k);
    var i := POSTGRES.FirstScheme(s);
    assert i == k;
    POSTGRES.NotBoth(s, k);
    assert s[..|s|] == s;
    FromWord(POSTGRES.RedactedWord, s, |s|);
    assert POSTGRES.Placeholder() == "[DSN REDACTED]";
  }

  /** What stands on the two sides of a space, line break or quote is redacted by itself. */
  lemma RedactedApart(u: string, c: char, v: string)
    requires c == ' ' || c == '\n' || c == '"' || c == '\''
    ensures POSTGRES.Redacted(u + [c] + v) == POSTGRES.Redacted(u) + [c] + POSTGRES.Redacted(v)
  {
    var s := u + [c] + v;
    assert s[|u|] == c && s[..|u|] == u && s[|u| + 1..] == v;
    MapSplits(POSTGRES.RedactedWord, s, |u|);
  }

  /** The text can get longer on the way: this message is shorter than its redaction. */
  lemma RedactionCanGrow()
    ensures |POSTGRES.Redacted("postgres://")| > |"postgres://"|
  {
    var w := "postgres://";
    assert POSTGRES.SchemeAt(w, 0);
    assert POSTGRES.FirstScheme(w) == 0;
    assert w[..|w|] == w;
    FromWord(POSTGRES.RedactedWord, w, |w|);
  }
}
