/** Which id a new canvas gets: the letters and digits of its name, and the first free running number. */
module CanvasIds {
  import opened Results
  import opened Text
  import opened Picking
  import opened CanvasRewriting
  import opened CanvasText
  import opened CanvasStore
  import Sql

  predicate LetterOrDigit(ch: char) {
    'a' <= ch <= 'z' || '0' <= ch <= '9'
  }

  /** Letters, digits, dashes and underscores as they are, spaces as dashes, nothing else, in order. */
  predicate KeepsSlugChars(s: string, kept: string, places: seq<nat>) {
    && Places(places, |s|) && |kept| == |places|
    && (forall k :: 0 <= k < |s| ==> (k in places <==> LetterOrDigit(s[k]) || s[k] == '-' || s[k] == '_' || s[k] == ' '))
    && (forall j :: 0 <= j < |kept| ==> kept[j] == if s[places[j]] == ' ' then '-' else s[places[j]])
  }

  function Dashed(s: string): (r: string)
    ensures |r| == |s|
    ensures forall k :: 0 <= k < |s| ==> r[k] == if s[k] == ' ' then '-' else s[k]
  {
    seq(|s|, k requires 0 <= k < |s| => if s[k] == ' ' then '-' else s[k])
  }

  lemma {:induction false} SlugCharsKeep(s: string) returns (places: seq<nat>)
    ensures KeepsSlugChars(s, SlugChars(s), places)
  {
    hide Behind, Places, Dashed;
    if s == "" {
      places := [];
      NoPlaces();
    } else {
      var rest := SlugCharsKeep(s[1..]);
      var taken := SlugChar(s[0]) || s[0] == ' ';
      var list := Dashed(s);
      assert list[1..] == Dashed(s[1..]);
      places := Behind(taken, rest);
      PlacesAreBelow(rest, |s| - 1);
      PickedBehind(list, taken, rest, SlugChars(s[1..]));
      PlacesAreBelow(places, |s|);
      forall k | 0 <= k < |s|
        ensures k in places <==> LetterOrDigit(s[k]) || s[k] == '-' || s[k] == '_' || s[k] == ' '
      {
        BehindHas(taken, rest, k);
        assert k > 0 ==> s[1..][k - 1] == s[k];
      }
    }
  }

  // ---------- Ends without letters ----------

  predicate Plain(s: string) {
    forall k :: 0 <= k < |s| ==> !LetterOrDigit(s[k])
  }

  lemma {:induction false} PlainGivesJoiners(s: string)
    requires Plain(s)
    ensures forall k :: 0 <= k < |SlugChars(s)| ==> Joiner(SlugChars(s)[k])
  {
    if s != "" {
      PlainGivesJoiners(s[1..]);
    }
  }

  lemma {:induction false} JoinersTrimmedLeft(a: string, b: string)
    requires forall k :: 0 <= k < |a| ==> Joiner(a[k])
    requires b == "" || !Joiner(b[0])
    ensures TrimJoinersLeft(a + b) == b
  {
    if a == "" {
      assert a + b == b;
    } else {
      assert (a + b)[1..] == a[1..] + b;
      JoinersTrimmedLeft(a[1..], b);
    }
  }

  lemma {:induction false} JoinersTrimmedRight(a: string, b: string)
    requires forall k :: 0 <= k < |b| ==> Joiner(b[k])
    requires a == "" || !Joiner(a[|a| - 1])
    ensures TrimJoinersRight(a + b) == a
    decreases |b|
  {
    if b == "" {
      assert a + b == a;
    } else {
      var n := |b| - 1;
      assert (a + b)[..|a + b| - 1] == a + b[..n];
      JoinersTrimmedRight(a, b[..n]);
    }
  }

  lemma MiddleEnds(s: string)
    requires s != "" && LetterOrDigit(s[0]) && LetterOrDigit(s[|s| - 1])
    ensures var m := SlugChars(s); m != "" && !Joiner(m[0]) && !Joiner(m[|m| - 1])
  {
    var n := |s| - 1;
    assert s == s[..n] + [s[n]];
    SlugCharsConcat(s[..n], [s[n]]);
    assert [s[n]][1..] == "";
    assert SlugChars([s[n]]) == [s[n]];
  }

  /**
    The slug of a name, from the lower-case trimmed name: if it has no letter or digit
    "canvas", else what is kept from its first letter or digit up to its last.
   */
  lemma SlugMeaning(value: string, a: nat, b: nat) returns (places: seq<nat>)
    ensures Plain(Lower(Trim(value))) ==> Slug(value) == "canvas"
    ensures var t := Lower(Trim(value));
            a <= b < |t| && LetterOrDigit(t[a]) && LetterOrDigit(t[b]) && Plain(t[..a]) && Plain(t[b + 1..]) ==>
              KeepsSlugChars(t[a..b + 1], Slug(value), places)
  {
    hide TrimLeft, TrimRight, Lower, KeepsSlugChars, SlugChars, Trim;
    TrimCommutesWithCase(value);
    var t := Lower(Trim(value));
    places := [];
    if Plain(t) {
      PlainGivesJoiners(t);
      JoinersTrimmedLeft(SlugChars(t), "");
      assert SlugChars(t) + "" == SlugChars(t);
      assert TrimJoinersRight("") == "";
    } else if a <= b < |t| && LetterOrDigit(t[a]) && LetterOrDigit(t[b]) && Plain(t[..a]) && Plain(t[b + 1..]) {
      var x, y, z := t[..a], t[a..b + 1], t[b + 1..];
      assert t == x + (y + z);
      SlugCharsConcat(x, y + z);
      SlugCharsConcat(y, z);
      MiddleEnds(y);
      PlainGivesJoiners(x);
      PlainGivesJoiners(z);
      JoinersTrimmedLeft(SlugChars(x), SlugChars(y) + SlugChars(z));
      JoinersTrimmedRight(SlugChars(y), SlugChars(z));
      places := SlugCharsKeep(y);
    }
  }

  // ---------- The id ----------

  /** The ids that are tried, in order. */
  function TriedId(name: string, attempt: nat): string
    requires attempt < 10
  {
    if attempt == 0 then "canvas-" + Slug(name) else "canvas-" + Slug(name) + "-" + ["0123456789"[attempt]]
  }

  lemma TriedIsCandidate(name: string, attempt: nat)
    requires attempt < MAX_ATTEMPTS
    ensures CandidateId(name, attempt) == TriedId(name, attempt)
  {
    hide Slug;
    assert attempt > 0 ==> Sql.Decimal(attempt) == ["0123456789"[attempt]];
  }

  lemma TriedInOrder(rows: seq<Row>, name: string, attempt: nat)
    requires attempt <= MAX_ATTEMPTS && TryCreate(rows, name, attempt).Ok?
    ensures exists k :: attempt <= k < MAX_ATTEMPTS && (forall m :: attempt <= m < k ==> IdUsed(rows, CandidateId(name, m)))
                        && !IdUsed(rows, CandidateId(name, k))
                        && TryCreate(rows, name, attempt).value == rows + [Row(CandidateId(name, k), name, DRAFT_SPEC, 1)]
    decreases MAX_ATTEMPTS - attempt
  {
    hide CandidateId, IdUsed;
    if IdUsed(rows, CandidateId(name, attempt)) {
      TriedInOrder(rows, name, attempt + 1);
    }
  }

  /** A new canvas gets the first id that is free: a row with the trimmed name, an empty canvas and version 1. */
  lemma DraftGetsFirstFreeId(rows: seq<Row>, raw: string) returns (k: nat)
    requires CreateDraft(rows, raw).Ok?
    ensures k < 10 && (forall m :: 0 <= m < k ==> IdUsed(rows, TriedId(Trim(raw), m))) && !IdUsed(rows, TriedId(Trim(raw), k))
    ensures CreateDraft(rows, raw).value == rows + [Row(TriedId(Trim(raw), k), Trim(raw), "{\"nodes\":[],\"edges\":[]}", 1)]
  {
    hide CandidateId, TriedId, IdUsed, Trim, TryCreate;
    var name := Trim(raw);
    TriedInOrder(rows, name, 0);
    k :| 0 <= k < MAX_ATTEMPTS && (forall m :: 0 <= m < k ==> IdUsed(rows, CandidateId(name, m)))
         && !IdUsed(rows, CandidateId(name, k))
         && TryCreate(rows, name, 0).value == rows + [Row(CandidateId(name, k), name, DRAFT_SPEC, 1)];
    forall m | 0 <= m <= k
      ensures CandidateId(name, m) == TriedId(name, m)
    {
      TriedIsCandidate(name, m);
    }
  }
}
