/** Text helpers of the position finder: JavaScript's trimming, indexOf and the two regular
    expressions it uses, each with what a match says about the text. */
module YamlText {
  import opened Basics

  /** The white space of String.prototype.trim and of \s. */
  predicate IsSpace(c: char)
  {
    || '\t' <= c <= '\r' || c == ' ' || c == '\U{A0}' || c == '\U{1680}' || '\U{2000}' <= c <= '\U{200A}'
    || c == '\U{2028}' || c == '\U{2029}' || c == '\U{202F}' || c == '\U{205F}' || c == '\U{3000}' || c == '\U{FEFF}'
  }

  function Indent(line: string): (n: nat)
    ensures n <= |line| && (n < |line| ==> !IsSpace(line[n]))
    ensures forall k :: 0 <= k < n ==> IsSpace(line[k])
  {
    if line == "" || !IsSpace(line[0]) then 0 else 1 + Indent(line[1..])
  }

  function TrimEnd(s: string): (r: string)
    ensures |r| <= |s| && r == s[..|r|]
    ensures s != "" && !IsSpace(s[0]) ==> r != ""
  {
    if s == "" || !IsSpace(s[|s| - 1]) then s else TrimEnd(s[..|s| - 1])
  }

  function Trim(line: string): string
  {
    TrimEnd(line[Indent(line)..])
  }

  /** Empty lines and comments. */
  predicate Skipped(line: string)
  {
    var t := Trim(line);
    t == "" || t[0] == '#'
  }

  function KeyEnd(t: string): (n: nat)
    ensures n <= |t|
  {
    if t == "" || t[0] in ":#[]" then 0 else 1 + KeyEnd(t[1..])
  }

  /** The key of a line, as /^([^:#[\]]+):/ finds it on the trimmed line. */
  function KeyOf(line: string): Option<string>
  {
    var t := Trim(line);
    var n := KeyEnd(t);
    if 0 < n < |t| && t[n] == ':' then Some(Trim(t[..n])) else None
  }

  predicate StartsAt(text: string, name: string, i: int)
  {
    0 <= i && i + |name| <= |text| && text[i..i + |name|] == name
  }

  ghost predicate Occurs(text: string, name: string)
  {
    exists i :: StartsAt(text, name, i)
  }

  /** indexOf, from a position on. */
  function IndexOf(text: string, name: string, from: nat): (r: int)
    ensures r == -1 || (from <= r && StartsAt(text, name, r))
    ensures forall k :: from <= k && (r == -1 || k < r) ==> !StartsAt(text, name, k)
    decreases |text| + 1 - from
  {
    if from > |text| then -1 else if StartsAt(text, name, from) then from else IndexOf(text, name, from + 1)
  }

  function BracketEnd(text: string, i: nat): (n: nat)
    requires i <= |text|
    ensures i <= n <= |text|
    decreases |text| - i
  {
    if i == |text| || text[i] == ']' then i else BracketEnd(text, i + 1)
  }

  /** What /:\s*\[([^\]]+)\]/ captures on the line, from a position on. */
  function InlineArray(line: string, p: nat): (r: Option<string>)
    requires p <= |line|
    ensures r.Some? ==> exists i :: StartsAt(line, r.value, i)
    decreases |line| - p
  {
    if p == |line| then None else
    var q := p + 1 + Indent(line[p + 1..]);
    if line[p] == ':' && q < |line| && line[q] == '[' then
      var n := BracketEnd(line, q + 1);
      if q + 1 < n < |line| then
        assert StartsAt(line, line[q + 1..n], q + 1);
        Some(line[q + 1..n])
      else InlineArray(line, p + 1)
    else InlineArray(line, p + 1)
  }

  lemma OccursWithin(text: string, part: string, i: int, name: string)
    requires StartsAt(text, part, i) && Occurs(part, name)
    ensures Occurs(text, name)
  {
    var k :| StartsAt(part, name, k);
    forall j | 0 <= j < |name| ensures text[i + k + j] == name[j] {
      assert name[j] == part[k..k + |name|][j] == text[i..i + |part|][k + j];
    }
    assert StartsAt(text, name, i + k);
  }

  lemma FirstLetter(text: string, name: string, i: int)
    requires StartsAt(text, name, i) && name != ""
    ensures text[i] == name[0]
  {
    assert text[i..i + |name|][0] == name[0];
  }

  lemma TrimIsPart(line: string)
    ensures StartsAt(line, Trim(line), Indent(line))
  {
    var rest := line[Indent(line)..];
    assert rest[..|Trim(line)|] == line[Indent(line)..Indent(line) + |Trim(line)|];
  }

  /** The first occurrence of a line's key on it is where the line's text begins. */
  lemma {:induction false} KeyIsFirst(line: string)
    requires KeyOf(line).Some?
    ensures IndexOf(line, KeyOf(line).value, 0) == Indent(line)
  {
    var t, key, ind := Trim(line), KeyOf(line).value, Indent(line);
    TrimIsPart(line);
    assert t[0] == line[ind];
    var head := t[..KeyEnd(t)];
    assert head[Indent(head)..] == head;
    assert key == TrimEnd(head) == t[..|key|];
    assert line[ind..ind + |key|] == t[..|key|];
    assert StartsAt(line, key, ind);
    forall k | 0 <= k < ind ensures !StartsAt(line, key, k) {
      if StartsAt(line, key, k) {
        FirstLetter(line, key, k);
      }
    }
  }

  // ---- the lines of a block ------------------------------------------------------------------

  function Spaces(n: nat): (s: string)
    ensures |s| == n && forall c <- s :: c == ' '
  {
    if n == 0 then "" else " " + Spaces(n - 1)
  }

  /** An indented key and what follows its colon. */
  function BlockLine(n: nat, key: string, rest: string): string
  {
    Spaces(n) + key + ":" + rest
  }

  predicate PlainKey(key: string)
  {
    key != "" && forall c <- key :: !IsSpace(c) && c !in ":#[]"
  }

  predicate EndsPlain(rest: string)
  {
    rest == "" || !IsSpace(rest[|rest| - 1])
  }

  lemma {:induction false} IndentIs(line: string, n: nat)
    requires n < |line| && !IsSpace(line[n]) && forall k :: 0 <= k < n ==> IsSpace(line[k])
    ensures Indent(line) == n
    decreases n
  {
    if n > 0 {
      IndentIs(line[1..], n - 1);
    }
  }

  lemma {:induction false} KeyEndIs(t: string, n: nat)
    requires n < |t| && t[n] in ":#[]" && forall k :: 0 <= k < n ==> t[k] !in ":#[]"
    ensures KeyEnd(t) == n
    decreases n
  {
    if n > 0 {
      KeyEndIs(t[1..], n - 1);
    }
  }

  lemma BlockText(n: nat, key: string, rest: string)
    requires PlainKey(key) && EndsPlain(rest)
    ensures Indent(BlockLine(n, key, rest)) == n && Trim(BlockLine(n, key, rest)) == key + ":" + rest
  {
    var line, t := BlockLine(n, key, rest), key + ":" + rest;
    assert line == Spaces(n) + t;
    assert t[0] == key[0] && key[0] in key;
    forall k | 0 <= k < n ensures IsSpace(line[k]) { assert line[k] in Spaces(n); }
    IndentIs(line, n);
    assert line[n..] == t;
    assert t[|t| - 1] == if rest == "" then ':' else rest[|rest| - 1];
  }

  lemma KeyIsTrim(key: string)
    requires PlainKey(key)
    ensures Trim(key) == key
  {
    assert key[0] in key && key[|key| - 1] in key;
    IndentIs(key, 0);
    assert key[0..] == key;
  }

  lemma KeyEndsAtColon(key: string, rest: string)
    requires PlainKey(key)
    ensures var t := key + ":" + rest; KeyEnd(t) == |key| && t[..|key|] == key && t[0] == key[0] && key[0] != '#'
  {
    var t := key + ":" + rest;
    forall k | 0 <= k < |key| ensures t[k] == key[k] && key[k] !in ":#[]" { assert key[k] in key; }
    KeyEndIs(t, |key|);
  }

  /** What the scan sees of such a line. */
  lemma BlockLineRead(n: nat, key: string, rest: string)
    requires PlainKey(key) && EndsPlain(rest)
    ensures var line := BlockLine(n, key, rest); !Skipped(line) && KeyOf(line) == Some(key) && Indent(line) == n
  {
    BlockText(n, key, rest);
    KeyEndsAtColon(key, rest);
    KeyIsTrim(key);
  }

  lemma {:induction false} BracketEndIs(text: string, i: nat, n: nat)
    requires i <= n < |text| && text[n] == ']' && forall k :: i <= k < n ==> text[k] != ']'
    ensures BracketEnd(text, i) == n
    decreases n - i
  {
    if i < n {
      BracketEndIs(text, i + 1, n);
    }
  }

  lemma {:induction false} InlineFrom(line: string, p: nat, q: nat)
    requires p <= q <= |line| && forall k :: p <= k < q ==> line[k] != ':'
    ensures InlineArray(line, p) == InlineArray(line, q)
    decreases q - p
  {
    if p < q {
      InlineStep(line, p);
      InlineFrom(line, p + 1, q);
    }
  }

  lemma InlineStep(line: string, p: nat)
    requires p < |line| && line[p] != ':'
    ensures InlineArray(line, p) == InlineArray(line, p + 1)
  {
  }

  lemma InlineBrackets(line: string, p: nat, items: string)
    requires items != "" && ']' !in items && p <= |line| && line[p..] == ": [" + items + "]"
    ensures Indent(line[p + 1..]) == 1 && line[p] == ':' && line[p + 2] == '['
    ensures |line| == p + 4 + |items| && line[p + 3 + |items|] == ']' && line[p + 3..p + 3 + |items|] == items
  {
    var rest := line[p..];
    assert rest == ": [" + (items + "]");
    assert rest[1..][0] == ' ' && rest[1..][1] == '[' && line[p + 1..] == rest[1..];
    IndentIs(line[p + 1..], 1);
    assert rest[3..] == items + "]" && line[p + 3..] == rest[3..];
    assert line[p + 3..][..|items|] == items;
  }

  lemma {:induction false} InlineAt(line: string, p: nat, items: string)
    requires items != "" && ']' !in items && p <= |line| && line[p..] == ": [" + items + "]"
    ensures InlineArray(line, p) == Some(items)
  {
    InlineBrackets(line, p, items);
    var inner := line[p + 3..p + 3 + |items|];
    forall k | p + 3 <= k < p + 3 + |items| ensures line[k] != ']' { assert line[k] == inner[k - p - 3]; }
    BracketEndIs(line, p + 3, p + 3 + |items|);
  }

  /** The inline list of a line `key: [items]`. */
  lemma InlineListRead(n: nat, key: string, items: string)
    requires PlainKey(key) && items != "" && ']' !in items
    ensures InlineArray(BlockLine(n, key, " [" + items + "]"), 0) == Some(items)
  {
    var head, tail := Spaces(n) + key, ": [" + items + "]";
    var line := head + tail;
    assert BlockLine(n, key, " [" + items + "]") == line;
    forall k | 0 <= k < |head| ensures line[k] != ':' {
      assert line[k] == head[k] && if k < n then head[k] in Spaces(n) else head[k] in key;
    }
    InlineFrom(line, 0, |head|);
    assert line[|head|..] == tail;
    InlineAt(line, |head|, items);
  }

  // ---- what the helpers mean -----------------------------------------------------------------

  lemma {:induction false} TrimEndStops(s: string)
    ensures var r := TrimEnd(s);
            && (r != "" ==> !IsSpace(r[|r| - 1]))
            && forall k :: |r| <= k < |s| ==> IsSpace(s[k])
    decreases |s|
  {
    if s != "" && IsSpace(s[|s| - 1]) {
      TrimEndStops(s[..|s| - 1]);
    }
  }

  /** Trimming cuts the white space at both ends, and nothing else. */
  lemma TrimExactly(line: string, t: string)
    ensures t == Trim(line) <==>
            exists i, j :: 0 <= i <= j <= |line| && t == line[i..j] && CutAt(line, i, j)
  {
    TrimIsCut(line);
    forall i, j | 0 <= i <= j <= |line| && t == line[i..j] && CutAt(line, i, j) ensures t == Trim(line) {
      CutIsUnique(line, i, j, Indent(line), Indent(line) + |Trim(line)|);
    }
  }

  /** All before i and from j on is white space, and what is left begins and ends with something else;
      of white space alone nothing is left, at the end. */
  ghost predicate CutAt(line: string, i: int, j: int)
    requires 0 <= i <= j <= |line|
  {
    && (forall k :: 0 <= k < i ==> IsSpace(line[k]))
    && (forall k :: j <= k < |line| ==> IsSpace(line[k]))
    && (if i == j then i == |line| else !IsSpace(line[i]) && !IsSpace(line[j - 1]))
  }

  lemma TrimIsCut(line: string)
    ensures var i := Indent(line); var j := i + |Trim(line)|;
            i <= j <= |line| && Trim(line) == line[i..j] && CutAt(line, i, j)
  {
    TrimIsPart(line);
    CutEnd(line, Indent(line));
  }

  lemma CutEnd(line: string, i: nat)
    requires i <= |line| && (i < |line| ==> !IsSpace(line[i]))
    ensures var j := i + |TrimEnd(line[i..])|;
            && i <= j <= |line|
            && (forall k :: j <= k < |line| ==> IsSpace(line[k]))
            && (if i == j then i == |line| else !IsSpace(line[j - 1]))
  {
    var rest := line[i..];
    var t := TrimEnd(rest);
    TrimEndStops(rest);
    forall k | i + |t| <= k < |line| ensures IsSpace(line[k]) { assert line[k] == rest[k - i]; }
    assert forall k :: 0 <= k < |t| ==> t[k] == line[i + k];
  }

  lemma CutIsUnique(line: string, i: int, j: int, k: int, l: int)
    requires 0 <= i <= j <= |line| && 0 <= k <= l <= |line| && CutAt(line, i, j) && CutAt(line, k, l)
    ensures i == k && j == l
  {
  }

  /** Lines are skipped exactly if there is nothing but white space on them, or white space and a #. */
  lemma SkippedExactlyWhen(line: string)
    ensures Skipped(line) <==>
            || (forall c <- line :: IsSpace(c))
            || exists i :: 0 <= i < |line| && line[i] == '#' && forall k :: 0 <= k < i ==> IsSpace(line[k])
  {
    var i, t := Indent(line), Trim(line);
    TrimIsCut(line);
    if t != "" {
      assert t[0] == line[i] && line[i] in line;
      forall j | 0 <= j < |line| && line[j] == '#' && forall k :: 0 <= k < j ==> IsSpace(line[k]) ensures t[0] == '#' {
        assert j == i;
      }
    } else {
      assert i == |line|;
    }
  }

  lemma {:induction false} KeyEndStops(t: string)
    ensures var n := KeyEnd(t);
            (n < |t| ==> t[n] in ":#[]") && forall k :: 0 <= k < n ==> t[k] !in ":#[]"
  {
    if t != "" && t[0] !in ":#[]" {
      KeyEndStops(t[1..]);
    }
  }

  /** The key of a line, as the expression describes it: at least one character, none of them : # [ or ],
      up to a colon. */
  lemma KeyExactlyWhen(line: string, key: string)
    ensures var t := Trim(line);
            KeyOf(line) == Some(key) <==>
            exists n :: 0 < n < |t| && t[n] == ':' && (forall k :: 0 <= k < n ==> t[k] !in ":#[]") &&
                        key == Trim(t[..n])
  {
    var t := Trim(line);
    KeyEndStops(t);
    forall n | 0 < n < |t| && t[n] == ':' && (forall k :: 0 <= k < n ==> t[k] !in ":#[]") ensures n == KeyEnd(t) {
    }
  }

  /** The expression :\s*\[([^\]]+)\] matches from position p on, and captures s. */
  ghost predicate ListMatch(line: string, p: int, s: string)
  {
    exists q :: 0 <= p < q && q + |s| + 1 < |line| && ListAt(line, p, s, q)
  }

  predicate ListAt(line: string, p: int, s: string, q: int)
    requires 0 <= p < q && q + |s| + 1 < |line|
  {
    && line[p] == ':' && (forall k :: p < k < q ==> IsSpace(line[k])) && line[q] == '['
    && s != "" && ']' !in s && line[q + 1..q + 1 + |s|] == s && line[q + 1 + |s|] == ']'
  }

  lemma {:induction false} BracketEndStops(text: string, i: nat)
    requires i <= |text|
    ensures var n := BracketEnd(text, i);
            (n < |text| ==> text[n] == ']') && forall k :: i <= k < n ==> text[k] != ']'
    decreases |text| - i
  {
    if i < |text| && text[i] != ']' {
      BracketEndStops(text, i + 1);
    }
  }

  /** What is captured at a position, if the expression matches there. */
  predicate Captures(line: string, p: nat, s: string)
    requires p < |line|
  {
    var q := p + 1 + Indent(line[p + 1..]);
    && line[p] == ':' && q < |line| && line[q] == '['
    && var n := BracketEnd(line, q + 1);
       q + 1 < n < |line| && s == line[q + 1..n]
  }

  lemma MatchIsCaptured(line: string, p: nat, s: string, q: int)
    requires p < q && q + |s| + 1 < |line| && ListAt(line, p, s, q)
    ensures Captures(line, p, s)
  {
    var rest := line[p + 1..];
    assert rest[q - p - 1] == '[' && !IsSpace(rest[q - p - 1]);
    forall k | 0 <= k < q - p - 1 ensures IsSpace(rest[k]) { assert rest[k] == line[p + 1 + k]; }
    IndentIs(rest, q - p - 1);
    var inner := line[q + 1..q + 1 + |s|];
    forall k | q + 1 <= k < q + 1 + |s| ensures line[k] != ']' { assert line[k] == inner[k - q - 1]; }
    BracketEndIs(line, q + 1, q + 1 + |s|);
  }

  lemma CaptureIsMatch(line: string, p: nat, s: string)
    requires p < |line| && Captures(line, p, s)
    ensures ListMatch(line, p, s)
  {
    var rest := line[p + 1..];
    var q := p + 1 + Indent(rest);
    forall k | p < k < q ensures IsSpace(line[k]) { assert line[k] == rest[k - p - 1]; }
    BracketEndStops(line, q + 1);
    assert ListAt(line, p, s, q);
  }

  lemma MatchesAreCaptures(line: string, p: nat, s: string)
    requires p < |line|
    ensures ListMatch(line, p, s) <==> Captures(line, p, s)
  {
    if ListMatch(line, p, s) {
      var q :| p < q && q + |s| + 1 < |line| && ListAt(line, p, s, q);
      MatchIsCaptured(line, p, s, q);
    }
    if Captures(line, p, s) {
      CaptureIsMatch(line, p, s);
    }
  }

  /** The list found from a position on is what the expression captures at its first match. */
  ghost predicate FirstMatch(line: string, p: nat, s: string, m: int)
  {
    p <= m && ListMatch(line, m, s) && forall k, other :: p <= k < m ==> !ListMatch(line, k, other)
  }

  lemma InlineHere(line: string, p: nat)
    requires p < |line|
    ensures (exists s :: Captures(line, p, s)) ==>
              InlineArray(line, p).Some? && Captures(line, p, InlineArray(line, p).value)
    ensures (forall s :: !Captures(line, p, s)) ==> InlineArray(line, p) == InlineArray(line, p + 1)
  {
    var q := p + 1 + Indent(line[p + 1..]);
    if line[p] == ':' && q < |line| && line[q] == '[' {
      var n := BracketEnd(line, q + 1);
      assert q + 1 < n < |line| ==> Captures(line, p, line[q + 1..n]);
    }
  }

  lemma MatchHere(line: string, p: nat)
    requires p < |line| && exists s :: Captures(line, p, s)
    ensures InlineArray(line, p).Some? && FirstMatch(line, p, InlineArray(line, p).value, p)
  {
    InlineHere(line, p);
    MatchesAreCaptures(line, p, InlineArray(line, p).value);
  }

  lemma NoMatchHere(line: string, p: nat)
    requires p < |line| && forall s :: !Captures(line, p, s)
    ensures InlineArray(line, p) == InlineArray(line, p + 1) && forall s :: !ListMatch(line, p, s)
  {
    InlineHere(line, p);
    forall s ensures !ListMatch(line, p, s) { MatchesAreCaptures(line, p, s); }
  }

  lemma MatchLater(line: string, p: nat, s: string, m: int)
    requires FirstMatch(line, p + 1, s, m) && forall other :: !ListMatch(line, p, other)
    ensures FirstMatch(line, p, s, m)
  {
  }

  lemma {:induction false} InlineIsFirstMatch(line: string, p: nat)
    requires p <= |line|
    ensures InlineArray(line, p).Some? ==> exists m :: FirstMatch(line, p, InlineArray(line, p).value, m)
    ensures InlineArray(line, p).None? ==> forall k, s :: p <= k ==> !ListMatch(line, k, s)
    decreases |line| - p
  {
    if p < |line| {
      if exists s :: Captures(line, p, s) {
        MatchHere(line, p);
      } else {
        NoMatchHere(line, p);
        InlineIsFirstMatch(line, p + 1);
        if InlineArray(line, p + 1).Some? {
          var m :| FirstMatch(line, p + 1, InlineArray(line, p + 1).value, m);
          MatchLater(line, p, InlineArray(line, p + 1).value, m);
        }
      }
    }
  }
}
