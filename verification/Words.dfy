/**
 * Texts seen as words between delimiters, and functions applied word by word.
 * A word function can be applied to a text piece by piece, which is what lets a
 * change inside one word be judged without looking at the rest of the text.
 */
module Words {

  predicate Delimiter(c: char) {
    c == ' ' || c == '\n' || c == '"' || c == '\''
  }

  ghost predicate NoDelimiter(s: string) {
    forall i :: 0 <= i < |s| ==> !Delimiter(s[i])
  }

  /** The length of the leading word of `s`. */
  function WordLength(s: string): (n: nat)
    ensures n <= |s|
    ensures forall i :: 0 <= i < n ==> !Delimiter(s[i])
    ensures n < |s| ==> Delimiter(s[n])
  {
    if s == [] || Delimiter(s[0]) then 0 else 1 + WordLength(s[1..])
  }

  /** The start of the word that position `k` lies in. */
  ghost function WordStart(s: string, k: nat): (start: nat)
    requires k <= |s|
    ensures start <= k
    ensures forall i :: start <= i < k ==> !Delimiter(s[i])
    ensures start > 0 ==> Delimiter(s[start - 1])
  {
    if k == 0 || Delimiter(s[k - 1]) then k else WordStart(s, k - 1)
  }

  /** Applies `f` to every word of `s` and keeps the delimiters. */
  ghost function MapWords(f: string -> string, s: string): string
    decreases |s|
  {
    var n := WordLength(s);
    if n == |s| then f(s) else f(s[..n]) + [s[n]] + MapWords(f, s[n + 1..])
  }

  /** The mapped text behind position `end`, where a word stops. */
  ghost function Rest(f: string -> string, s: string, end: nat): string
    requires end <= |s|
  {
    if end == |s| then [] else [s[end]] + MapWords(f, s[end + 1..])
  }

  /** The mapped text in front of position `start`, where a word begins. */
  ghost function Front(f: string -> string, s: string, start: nat): string
    requires start <= |s|
  {
    if start == 0 then [] else MapWords(f, s[..start - 1]) + [s[start - 1]]
  }

  lemma {:induction false} FromWord(f: string -> string, s: string, n: nat)
    requires n <= |s| && NoDelimiter(s[..n]) && (n < |s| ==> Delimiter(s[n]))
    ensures MapWords(f, s) == f(s[..n]) + Rest(f, s, n)
  {
    forall i | 0 <= i < n ensures !Delimiter(s[i]) {
      assert s[..n][i] == s[i];
    }
    assert WordLength(s) == n;
    assert n == |s| ==> s[..n] == s;
  }

  lemma Rejoin(s: string, k: nat)
    requires k < |s|
    ensures s == s[..k] + [s[k]] + s[k + 1..]
  {
  }

  lemma RejoinThree(s: string, i: nat, j: nat)
    requires i <= j <= |s|
    ensures s == s[..i] + (s[i..j] + s[j..])
  {
  }

  lemma PrefixOfPart(s: string, i: nat, j: nat, k: nat)
    requires i <= j <= k <= |s|
    ensures s[i..k][..j - i] == s[i..j]
  {
  }

  lemma PartsAroundCut(s: string, n: nat, k: nat)
    requires n < k < |s|
    ensures var rest, m := s[n + 1..], k - n - 1;
            && s[..k][..n] == s[..n] && s[..k][n + 1..] == rest[..m]
            && rest[m] == s[k] && rest[m + 1..] == s[k + 1..]
  {
  }

  lemma Assoc(x: string, y: string, z: string)
    ensures x + (y + z) == x + y + z
  {
  }

  /** Putting a split tail back together. */
  lemma JoinSplit(w: string, c: string, r: string, d: string, b: string)
    ensures w + (c + (r + d + b)) == w + (c + r) + d + b
  {
  }

  lemma WordIsMapped(f: string -> string, w: string)
    requires NoDelimiter(w)
    ensures MapWords(f, w) == f(w)
  {
    assert w[..|w|] == w;
    FromWord(f, w, |w|);
    assert f(w) + [] == f(w);
  }

  /** The first word of a text ends at its first delimiter. */
  lemma FirstWord(s: string, k: nat) returns (n: nat)
    requires k < |s| && Delimiter(s[k])
    ensures n <= k && NoDelimiter(s[..n]) && Delimiter(s[n])
  {
    n := WordLength(s);
  }

  lemma {:induction false} SplitAtWord(f: string -> string, s: string, k: nat)
    requires k < |s| && Delimiter(s[k]) && NoDelimiter(s[..k])
    ensures MapWords(f, s) == MapWords(f, s[..k]) + [s[k]] + MapWords(f, s[k + 1..])
  {
    FromWord(f, s, k);
    WordIsMapped(f, s[..k]);
    Assoc(f(s[..k]), [s[k]], MapWords(f, s[k + 1..]));
  }

  /** A text that can be cut behind its first word can be cut with that word in front. */
  lemma {:induction false} SplitBehindWord(f: string -> string, s: string, n: nat, k: nat)
    requires n < k < |s| && NoDelimiter(s[..n]) && Delimiter(s[n])
    requires var rest, m := s[n + 1..], k - n - 1;
             MapWords(f, rest) == MapWords(f, rest[..m]) + [rest[m]] + MapWords(f, rest[m + 1..])
    ensures MapWords(f, s) == MapWords(f, s[..k]) + [s[k]] + MapWords(f, s[k + 1..])
  {
    PartsAroundCut(s, n, k);
    FromWord(f, s, n);
    FromWord(f, s[..k], n);
    JoinSplit(f(s[..n]), [s[n]], MapWords(f, s[..k][n + 1..]), [s[k]], MapWords(f, s[k + 1..]));
  }

  /** Words are mapped independently of each other: a text may be cut at any delimiter. */
  lemma {:induction false} MapSplits(f: string -> string, s: string, k: nat)
    requires k < |s| && Delimiter(s[k])
    ensures MapWords(f, s) == MapWords(f, s[..k]) + [s[k]] + MapWords(f, s[k + 1..])
    decreases |s|
  {
    var n := FirstWord(s, k);
    if n < k {
      assert s[n + 1..][k - n - 1] == s[k];
      MapSplits(f, s[n + 1..], k - n - 1);
      SplitBehindWord(f, s, n, k);
    } else {
      SplitAtWord(f, s, k);
    }
  }

  lemma BeforeWord(f: string -> string, s: string, start: nat)
    requires start <= |s| && (start > 0 ==> Delimiter(s[start - 1]))
    ensures MapWords(f, s) == Front(f, s, start) + MapWords(f, s[start..])
  {
    if start > 0 {
      MapSplits(f, s, start - 1);
    } else {
      assert s == s[start..];
    }
  }

  /** The mapped text around one word: what stands before it, the word, what follows. */
  lemma {:induction false} AroundWord(f: string -> string, s: string, start: nat, end: nat)
    requires start <= end <= |s|
    requires NoDelimiter(s[start..end])
    requires start > 0 ==> Delimiter(s[start - 1])
    requires end < |s| ==> Delimiter(s[end])
    ensures MapWords(f, s) == Front(f, s, start) + f(s[start..end]) + Rest(f, s, end)
  {
    var from := s[start..];
    assert from[..end - start] == s[start..end];
    FromWord(f, from, end - start);
    assert end < |s| ==> from[end - start + 1..] == s[end + 1..];
    BeforeWord(f, s, start);
    Assoc(Front(f, s, start), f(s[start..end]), Rest(f, s, end));
  }

  lemma PartOfRest(s: string, from: nat, a: nat, b: nat)
    requires from <= |s| && a <= b <= |s| - from
    ensures s[from..][a..b] == s[from + a..from + b]
  {
  }

  /** A function that keeps every word keeps the text. */
  lemma {:induction false} MapKeeps(f: string -> string, s: string)
    requires forall a, b :: 0 <= a <= b <= |s| ==> f(s[a..b]) == s[a..b]
    ensures MapWords(f, s) == s
    decreases |s|
  {
    var n := WordLength(s);
    assert s[0..n] == s[..n];
    assert s[0..|s|] == s;
    if n < |s| {
      var rest := s[n + 1..];
      forall a, b | 0 <= a <= b <= |rest| ensures f(rest[a..b]) == rest[a..b] {
        PartOfRest(s, n + 1, a, b);
      }
      MapKeeps(f, rest);
      Rejoin(s, n);
    }
  }

  /**
   * Replacing the end of one word: if `f` turns the whole word into what it turns
   * the shortened word into, followed by a delimiter and a word it keeps, then
   * writing that delimiter and that word into the text changes nothing.
   */
  lemma ReplaceEndOfWord(f: string -> string, s: string, start: nat, index: nat, end: nat,
                         head: string, d: char, tail: string)
    requires start <= index <= end <= |s|
    requires NoDelimiter(s[start..end])
    requires start > 0 ==> Delimiter(s[start - 1])
    requires end < |s| ==> Delimiter(s[end])
    requires NoDelimiter(head) && Delimiter(d) && NoDelimiter(tail) && f(tail) == tail
    requires f(s[start..end]) == f(s[start..index] + head) + [d] + tail
    ensures MapWords(f, s[..index] + (head + [d] + tail) + s[end..]) == MapWords(f, s)
  {
    var next := s[..index] + (head + [d] + tail) + s[end..];
    AroundWord(f, s, start, end);
    ReplacementShape(s, start, index, end, head, d, tail);
    CutHasNoDelimiter(s, start, index, end, head);
    AfterReplacement(f, s, start, end, next, index + |head|, s[start..index] + head, d, tail);
    Regroup(Front(f, s, start), f(s[start..index] + head), [d], tail, Rest(f, s, end));
  }

  /** Where the pieces of the replaced text lie. */
  lemma ReplacementShape(s: string, start: nat, index: nat, end: nat, head: string, d: char, tail: string)
    requires start <= index <= end <= |s|
    ensures var next, mid := s[..index] + (head + [d] + tail) + s[end..], index + |head|;
            && mid < |next| && next[mid] == d && next[..start] == s[..start]
            && next[start..mid] == s[start..index] + head
            && next[mid + 1..] == tail + s[end..]
  {
  }

  lemma AfterReplacement(f: string -> string, s: string, start: nat, end: nat,
                         next: string, mid: nat, cut: string, d: char, tail: string)
    requires start <= end <= |s|
    requires start > 0 ==> Delimiter(s[start - 1])
    requires end < |s| ==> Delimiter(s[end])
    requires start <= mid < |next| && next[..start] == s[..start]
    requires next[start..mid] == cut && NoDelimiter(cut)
    requires next[mid] == d && Delimiter(d)
    requires next[mid + 1..] == tail + s[end..] && NoDelimiter(tail) && f(tail) == tail
    ensures MapWords(f, next) == Front(f, s, start) + f(cut) + ([d] + (tail + Rest(f, s, end)))
  {
    assert start > 0 ==> next[start - 1] == next[..start][start - 1] == s[start - 1];
    AroundWord(f, next, start, mid);
    SameFront(f, s, next, start);
    TailThenRest(f, s, end, tail);
  }

  lemma CutHasNoDelimiter(s: string, start: nat, index: nat, end: nat, head: string)
    requires start <= index <= end <= |s| && NoDelimiter(s[start..end]) && NoDelimiter(head)
    ensures NoDelimiter(s[start..index] + head)
  {
    assert s[start..index] == s[start..end][..index - start];
  }

  lemma SameFront(f: string -> string, s: string, next: string, start: nat)
    requires start <= |s| && start <= |next| && next[..start] == s[..start]
    ensures Front(f, next, start) == Front(f, s, start)
  {
    if start > 0 {
      assert next[..start - 1] == next[..start][..start - 1];
      assert s[..start - 1] == s[..start][..start - 1];
      assert next[start - 1] == next[..start][start - 1];
    }
  }

  lemma TailThenRest(f: string -> string, s: string, end: nat, tail: string)
    requires end <= |s| && (end < |s| ==> Delimiter(s[end]))
    requires NoDelimiter(tail) && f(tail) == tail
    ensures MapWords(f, tail + s[end..]) == tail + Rest(f, s, end)
  {
    var behind := tail + s[end..];
    assert behind[..|tail|] == tail;
    FromWord(f, behind, |tail|);
    assert end < |s| ==> behind[|tail| + 1..] == s[end + 1..];
  }

  lemma Regroup(f: string, x: string, y: string, z: string, r: string)
    ensures f + (x + y + z) + r == f + x + (y + (z + r))
  {
  }
}
