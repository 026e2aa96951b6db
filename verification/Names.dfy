/** Domain names as the filter sees them: normalised strings, cut into labels at the dots. */
module Names {

  /** The characters Python's `str.strip` removes. */
  predicate IsSpace(c: char) {
    var n := c as int;
    || 9 <= n <= 13 || 28 <= n <= 32 || n == 0x85 || n == 0xA0 || n == 0x1680 || 0x2000 <= n <= 0x200A
    || n == 0x2028 || n == 0x2029 || n == 0x202F || n == 0x205F || n == 0x3000
  }

  function LowerChar(c: char): char {
    if 'A' <= c <= 'Z' then c + 32 as char else c
  }

  function Lower(s: string): string {
    if s == "" then "" else [LowerChar(s[0])] + Lower(s[1..])
  }

  function LStrip(s: string): string {
    if s != "" && IsSpace(s[0]) then LStrip(s[1..]) else s
  }

  function RStrip(s: string): string {
    if s != "" && IsSpace(s[|s| - 1]) then RStrip(s[..|s| - 1]) else s
  }

  function RStripDots(s: string): string {
    if s != "" && s[|s| - 1] == '.' then RStripDots(s[..|s| - 1]) else s
  }

  /** `strip().lower().rstrip(".")`. */
  function Normalise(s: string): string {
    RStripDots(Lower(RStrip(LStrip(s))))
  }

  lemma {:induction false} LowerAt(s: string)
    ensures |Lower(s)| == |s| && forall i | 0 <= i < |s| :: Lower(s)[i] == LowerChar(s[i])
  {
    if s == "" {
    } else {
      LowerAt(s[1..]);
    }
  }

  lemma {:induction false} LStripFirst(s: string)
    ensures LStrip(s) != "" ==> !IsSpace(LStrip(s)[0])
  {
    if s != "" && IsSpace(s[0]) {
      LStripFirst(s[1..]);
    }
  }

  lemma {:induction false} RStripPrefix(s: string)
    ensures RStrip(s) <= s
    ensures s != "" && IsSpace(s[|s| - 1]) ==> |RStrip(s)| < |s|
  {
    if s != "" && IsSpace(s[|s| - 1]) {
      RStripPrefix(s[..|s| - 1]);
    }
  }

  lemma {:induction false} RStripDotsPrefix(s: string)
    ensures RStripDots(s) <= s
    ensures RStripDots(s) != "" ==> RStripDots(s)[|RStripDots(s)| - 1] != '.'
  {
    if s != "" && s[|s| - 1] == '.' {
      RStripDotsPrefix(s[..|s| - 1]);
    }
  }

  lemma LowerFixed(s: string)
    requires forall i | 0 <= i < |s| :: LowerChar(s[i]) == s[i]
    ensures Lower(s) == s
  {
    LowerAt(s);
  }

  /** A name with nothing to strip or lower is left alone. */
  lemma NothingToStrip(s: string)
    requires s != "" ==> !IsSpace(s[0]) && !IsSpace(s[|s| - 1]) && s[|s| - 1] != '.'
    requires forall i | 0 <= i < |s| :: LowerChar(s[i]) == s[i]
    ensures Normalise(s) == s
  {
    LowerFixed(s);
  }

  /** What a normalised name looks like. */
  lemma Normalised(s: string)
    ensures var n := Normalise(s);
            && (n != "" ==> !IsSpace(n[0]) && n[|n| - 1] != '.')
            && forall i | 0 <= i < |n| :: LowerChar(n[i]) == n[i]
  {
    var t := LStrip(s);
    var u := RStrip(t);
    LStripFirst(s);
    RStripPrefix(t);
    LowerAt(u);
    RStripDotsPrefix(Lower(u));
    var n := Normalise(s);
    assert forall i | 0 <= i < |n| :: n[i] == Lower(u)[i];
  }

  /** Normalising twice changes a name exactly when removing its final dots uncovers a space. */
  lemma NormaliseTwice(s: string)
    ensures var n := Normalise(s);
            Normalise(n) == n <==> n == "" || !IsSpace(n[|n| - 1])
  {
    var n := Normalise(s);
    Normalised(s);
    if n == "" || !IsSpace(n[|n| - 1]) {
      NothingToStrip(n);
    } else {
      RStripPrefix(n);
      LowerAt(RStrip(n));
      RStripDotsPrefix(Lower(RStrip(n)));
    }
  }

  predicate AllSpaces(s: string) {
    forall i | 0 <= i < |s| :: IsSpace(s[i])
  }

  predicate AllDots(s: string) {
    forall i | 0 <= i < |s| :: s[i] == '.'
  }

  lemma {:induction false} LStripAll(left: string, s: string)
    requires AllSpaces(left) && (s != "" ==> !IsSpace(s[0]))
    ensures LStrip(left + s) == s
  {
    if left == "" {
      assert left + s == s;
    } else {
      assert (left + s)[1..] == left[1..] + s;
      LStripAll(left[1..], s);
    }
  }

  lemma {:induction false} RStripAll(s: string, right: string)
    requires AllSpaces(right) && (s != "" ==> !IsSpace(s[|s| - 1]))
    ensures RStrip(s + right) == s
  {
    if right == "" {
      assert s + right == s;
    } else {
      assert (s + right)[..|s + right| - 1] == s + right[..|right| - 1];
      RStripAll(s, right[..|right| - 1]);
    }
  }

  lemma {:induction false} RStripDotsAll(s: string, dots: string)
    requires AllDots(dots) && (s != "" ==> s[|s| - 1] != '.')
    ensures RStripDots(s + dots) == s
  {
    if dots == "" {
      assert s + dots == s;
    } else {
      assert (s + dots)[..|s + dots| - 1] == s + dots[..|dots| - 1];
      RStripDotsAll(s, dots[..|dots| - 1]);
    }
  }

  /** What is between the spaces and before the final dots is kept character by character, capitals in lower case. */
  lemma NormaliseKeeps(left: string, name: string, dots: string, right: string)
    requires AllSpaces(left) && AllDots(dots) && AllSpaces(right)
    requires name != "" ==> !IsSpace(name[0]) && name[|name| - 1] != '.' && (dots == "" ==> !IsSpace(name[|name| - 1]))
    ensures var r := Normalise(left + (name + dots + right));
            && |r| == |name|
            && forall i | 0 <= i < |name| :: r[i] == if 'A' <= name[i] <= 'Z' then (name[i] as int + 32) as char else name[i]
  {
    var body := name + dots;
    if body == "" {
      LStripAll(left + right, "");
      assert left + (name + dots + right) == (left + right) + "";
    } else {
      LStripAll(left, body + right);
      RStripAll(body, right);
      LowerAt(body);
      LowerAt(name);
      assert Lower(body) == Lower(name) + dots;
      RStripDotsAll(Lower(name), dots);
    }
  }

  /** Python's `s.split(".")`. */
  function Split(s: string): (labels: seq<string>)
    ensures |labels| >= 1
  {
    if s == "" then [""]
    else
      var rest := Split(s[1..]);
      if s[0] == '.' then [""] + rest else [[s[0]] + rest[0]] + rest[1..]
  }

  /** Python's `".".join(labels)`. */
  function Join(labels: seq<string>): string {
    if labels == [] then ""
    else if |labels| == 1 then labels[0]
    else labels[0] + "." + Join(labels[1..])
  }

  lemma {:induction false} JoinSplit(s: string)
    ensures Join(Split(s)) == s
  {
    if s == "" {
    } else {
      JoinSplit(s[1..]);
      var rest := Split(s[1..]);
      if s[0] == '.' {
        assert Split(s)[1..] == rest;
      } else {
        assert Split(s)[1..] == rest[1..];
      }
      assert s == [s[0]] + s[1..];
    }
  }

  lemma {:induction false} JoinAppend(a: seq<string>, b: seq<string>)
    requires a != [] && b != []
    ensures Join(a + b) == Join(a) + "." + Join(b)
  {
    assert (a + b)[1..] == a[1..] + b;
    if |a| > 1 {
      JoinAppend(a[1..], b);
    } else {
      assert a[1..] + b == b;
    }
  }

  /** One step of `Split`, on a string given by its first character. */
  lemma SplitCons(c: char, s: string)
    ensures Split([c] + s) == if c == '.' then [""] + Split(s) else [[c] + Split(s)[0]] + Split(s)[1..]
  {
    assert ([c] + s)[1..] == s;
  }

  lemma SplitEmpty()
    ensures Split("") == [""]
  {
  }

  lemma {:induction false} SplitAppend(p: string, r: string)
    ensures Split(p + "." + r) == Split(p) + Split(r)
  {
    hide Split;
    if p == "" {
      assert p + "." + r == ['.'] + r;
      SplitEmpty();
      SplitCons('.', r);
    } else {
      var q := p[1..] + "." + r;
      SplitAppend(p[1..], r);
      assert p + "." + r == [p[0]] + q;
      SplitCons(p[0], q);
      assert [p[0]] + p[1..] == p;
      SplitCons(p[0], p[1..]);
    }
  }

  lemma {:induction false} SplitDotless(s: string)
    requires '.' !in s
    ensures Split(s) == [s]
  {
    if s == "" {
    } else {
      SplitDotless(s[1..]);
      assert [s[0]] + s[1..] == s;
    }
  }

  /** A name with nothing to strip or lower. */
  predicate Plain(s: string) {
    s != "" && s[|s| - 1] != '.' && forall c | c in s :: !IsSpace(c) && LowerChar(c) == c
  }

  lemma PlainFixed(s: string)
    requires Plain(s)
    ensures Normalise(s) == s
  {
    NothingToStrip(s);
  }

  predicate EndsWith(s: string, t: string) {
    |t| <= |s| && s[|s| - |t|..] == t
  }

  /** `name` is `rule` or lies under it. */
  predicate Under(name: string, rule: string) {
    name == rule || EndsWith(name, "." + rule)
  }

  predicate LabelSuffix(rule: seq<string>, labels: seq<string>) {
    |rule| <= |labels| && labels[|labels| - |rule|..] == rule
  }

  lemma SuffixUnder(rule: string, name: string)
    requires LabelSuffix(Split(rule), Split(name))
    ensures Under(name, rule)
  {
    hide Split, Join;
    JoinSplit(rule);
    JoinSplit(name);
    var cut := |Split(name)| - |Split(rule)|;
    var front := Split(name)[..cut];
    assert Split(name) == front + Split(rule);
    if cut > 0 {
      JoinAppend(front, Split(rule));
      assert name == Join(front) + ("." + rule);
    } else {
      assert Split(name) == Split(rule);
    }
  }

  lemma UnderSuffix(rule: string, name: string)
    requires Under(name, rule)
    ensures LabelSuffix(Split(rule), Split(name))
  {
    hide Split;
    if name != rule {
      var p := name[..|name| - |rule| - 1];
      assert name == p + ("." + rule) == p + "." + rule;
      SplitAppend(p, rule);
    }
  }

  /** A suffix of labels is the same as the string itself or a suffix after a dot. */
  lemma SuffixMeaning(rule: string, name: string)
    ensures LabelSuffix(Split(rule), Split(name)) <==> Under(name, rule)
  {
    if LabelSuffix(Split(rule), Split(name)) {
      SuffixUnder(rule, name);
    }
    if Under(name, rule) {
      UnderSuffix(rule, name);
    }
  }

  function Reversed<T>(s: seq<T>): (r: seq<T>)
    ensures |r| == |s|
  {
    seq(|s|, i requires 0 <= i < |s| => s[|s| - 1 - i])
  }

  /** Read backwards, a suffix is a prefix. */
  lemma ReversedSuffix<T>(a: seq<T>, b: seq<T>)
    ensures Reversed(a) <= Reversed(b) <==> |a| <= |b| && b[|b| - |a|..] == a
  {
    var ra, rb := Reversed(a), Reversed(b);
    if |a| <= |b| {
      var tail := b[|b| - |a|..];
      if ra <= rb {
        forall i | 0 <= i < |a| ensures tail[i] == a[i] {
          assert ra[|a| - 1 - i] == rb[|a| - 1 - i];
        }
      }
      if tail == a {
        forall i | 0 <= i < |a| ensures ra[i] == rb[i] {
          assert tail[|a| - 1 - i] == a[|a| - 1 - i];
        }
      }
    }
  }
}
