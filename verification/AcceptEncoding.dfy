/**
 * Choosing a content encoding from an Accept-Encoding header (src/http/accept-encoding.ts;
 * section 12.5.3 of RFC 9110). Trimming, lowercasing and the reading of a number are functions passed in.
 */
module AcceptEncoding {
  import opened Common
  import opened Text

  /** `clean` trims and lowercases, `trim` trims; `number` is None for text that is not a finite number. */
  datatype Reader = Reader(clean: string -> string, trim: string -> string, number: string -> Option<real>)

  /** A separator opens a new part, any other character lengthens the last one. */
  function Lengthened(parts: seq<string>, last: char, separator: char): (more: seq<string>)
    requires parts != []
    ensures more != []
  {
    if last == separator then parts + [""]
    else parts[..|parts| - 1] + [parts[|parts| - 1] + [last]]
  }

  /** text.split(separator) */
  function Split(text: string, separator: char): (parts: seq<string>)
    ensures parts != []
  {
    if text == "" then [""] else Lengthened(Split(text[..|text| - 1], separator), text[|text| - 1], separator)
  }

  lemma SplitNext(text: string, last: char, separator: char)
    ensures Split(text + [last], separator) == Lengthened(Split(text, separator), last, separator)
  {
    hide Lengthened;
    assert (text + [last])[..|text|] == text;
  }

  lemma LengthenedFront(first: string, parts: seq<string>, last: char, separator: char)
    requires parts != []
    ensures Lengthened([first] + parts, last, separator) == [first] + Lengthened(parts, last, separator)
  {
    var whole := [first] + parts;
    assert whole[..|whole| - 1] == [first] + parts[..|parts| - 1] && whole[|whole| - 1] == parts[|parts| - 1];
  }

  lemma LastApart(head: string, rest: string)
    requires rest != ""
    ensures rest == rest[..|rest| - 1] + [rest[|rest| - 1]]
    ensures head + rest == head + rest[..|rest| - 1] + [rest[|rest| - 1]]
  {
  }

  /** From the front: the text up to the first separator, then the split of what follows it. */
  lemma {:induction false} SplitFront(first: string, rest: string, separator: char)
    requires separator !in first
    ensures Split(first + [separator] + rest, separator) == [first] + Split(rest, separator)
    decreases |rest|
  {
    hide Split, Lengthened;
    var head := first + [separator];
    if rest == "" {
      SplitPlain(first, separator);
      SplitPlain("", separator);
      SplitNext(first, separator, separator);
      SeparatorOpens([first], separator);
      assert head + rest == head;
    } else {
      var shorter, last := rest[..|rest| - 1], rest[|rest| - 1];
      SplitFront(first, shorter, separator);
      SplitNext(shorter, last, separator);
      SplitNext(head + shorter, last, separator);
      LengthenedFront(first, Split(shorter, separator), last, separator);
      LastApart(head, rest);
    }
  }

  lemma SeparatorOpens(parts: seq<string>, separator: char)
    requires parts != []
    ensures Lengthened(parts, separator, separator) == parts + [""]
  {
  }

  lemma {:induction false} SplitPlain(text: string, separator: char)
    requires separator !in text
    ensures Split(text, separator) == [text]
  {
    if text != "" {
      SplitPlain(text[..|text| - 1], separator);
      assert text == text[..|text| - 1] + [text[|text| - 1]];
    }
  }

  // ---------------------------------------------------------------- one entry

  function ParameterValue(parameter: string, reader: Reader): string {
    reader.trim(Joined(Split(parameter, '=')[1..], "="))
  }

  predicate IsQuality(parameter: string, reader: Reader) { reader.clean(Split(parameter, '=')[0]) == "q" }

  function QualityValue(parameter: string, reader: Reader): Option<real> {
    var text := ParameterValue(parameter, reader);
    if text == "" then None
    else
      match reader.number(text)
      case None => None
      case Some(x) => if x < 0.0 || x > 1.0 then None else Some(x)
  }

  /** What a value may be: a number from 0 to 1 spelled by a text that is not blank. */
  ghost predicate Spells(value: string, q: real, reader: Reader) {
    reader.trim(value) != "" && reader.number(reader.trim(value)) == Some(q) && 0.0 <= q <= 1.0
  }

  /** A parameter is named by the text before its first equals sign; all that follows the sign is its value. */
  lemma ParameterIs(name: string, value: string, reader: Reader)
    requires '=' !in name
    ensures IsQuality(name, reader) <==> reader.clean(name) == "q"
    ensures IsQuality(name + "=" + value, reader) <==> reader.clean(name) == "q"
    ensures forall q :: QualityValue(name, reader) == Some(q) <==> Spells("", q, reader)
    ensures forall q :: QualityValue(name + "=" + value, reader) == Some(q) <==> Spells(value, q, reader)
  {
    SplitFront(name, value, '=');
    SplitPlain(name, '=');
    hide Split;
    JoinedSplit(value, '=');
    assert name + "=" + value == name + ['='] + value;
    assert ([name] + Split(value, '='))[1..] == Split(value, '=');
    assert [name][1..] == [];
  }

  lemma JoinedNext(parts: seq<string>, last: char, separator: char)
    requires parts != []
    ensures Joined(Lengthened(parts, last, separator), [separator]) == Joined(parts, [separator]) + [last]
  {
    var n := |parts| - 1;
    if last == separator {
      assert (parts + [""])[..n + 1] == parts;
    } else {
      var more := parts[..n] + [parts[n] + [last]];
      assert more[..n] == parts[..n] && more[n] == parts[n] + [last];
    }
  }

  /** Joining the parts gives the text back. */
  lemma {:induction false} JoinedSplit(text: string, separator: char)
    ensures Joined(Split(text, separator), [separator]) == text
  {
    hide Lengthened;
    if text != "" {
      var shorter := text[..|text| - 1];
      JoinedSplit(shorter, separator);
      JoinedNext(Split(shorter, separator), text[|text| - 1], separator);
      hide Joined;
      LastApart("", text);
    }
  }

  /** The last q parameter, 1 without one; None as soon as one of them is malformed. */
  function QualityOf(parameters: seq<string>, reader: Reader): (q: Option<real>)
    ensures q.Some? ==> 0.0 <= q.value <= 1.0
  {
    if parameters == [] then Some(1.0)
    else
      var before, last := QualityOf(parameters[..|parameters| - 1], reader), parameters[|parameters| - 1];
      if before.None? || !IsQuality(last, reader) then before else QualityValue(last, reader)
  }

  lemma {:induction false} MalformedStays(parameters: seq<string>, n: nat, reader: Reader)
    requires n <= |parameters| && QualityOf(parameters[..n], reader).None?
    ensures QualityOf(parameters, reader).None?
    decreases |parameters| - n
  {
    if n < |parameters| {
      assert parameters[..n + 1][..n] == parameters[..n];
      MalformedStays(parameters, n + 1, reader);
    } else {
      assert parameters[..n] == parameters;
    }
  }

  ghost predicate AllWellFormed(parameters: seq<string>, reader: Reader) {
    forall p :: p in parameters && IsQuality(p, reader) ==> QualityValue(p, reader).Some?
  }

  ghost predicate LastQuality(parameters: seq<string>, i: nat, reader: Reader) {
    && i < |parameters| && IsQuality(parameters[i], reader)
    && forall j :: i < j < |parameters| ==> !IsQuality(parameters[j], reader)
  }

  lemma {:induction false} FoundIffWellFormed(parameters: seq<string>, reader: Reader)
    ensures QualityOf(parameters, reader).Some? <==> AllWellFormed(parameters, reader)
  {
    hide IsQuality, QualityValue;
    if parameters != [] {
      var before, last := parameters[..|parameters| - 1], parameters[|parameters| - 1];
      FoundIffWellFormed(before, reader);
      assert last in parameters && forall p :: p in parameters <==> p in before || p == last;
    }
  }

  lemma {:induction false} LastCounts(parameters: seq<string>, i: nat, reader: Reader)
    requires LastQuality(parameters, i, reader) && QualityOf(parameters, reader).Some?
    ensures QualityOf(parameters, reader) == QualityValue(parameters[i], reader)
  {
    hide IsQuality, QualityValue;
    var n := |parameters| - 1;
    if i < n {
      assert parameters[..n][i] == parameters[i];
      LastCounts(parameters[..n], i, reader);
    }
  }

  lemma {:induction false} NoneIsOne(parameters: seq<string>, reader: Reader)
    requires forall p :: p in parameters ==> !IsQuality(p, reader)
    ensures QualityOf(parameters, reader) == Some(1.0)
  {
    hide IsQuality, QualityValue;
    if parameters != [] {
      NoneIsOne(parameters[..|parameters| - 1], reader);
    }
  }

  /** A quality comes out exactly when every q parameter is well formed: that of the last one, or 1 without any. */
  lemma {:induction false} QualityIs(parameters: seq<string>, reader: Reader)
    ensures var q := QualityOf(parameters, reader);
            && (q.Some? <==> AllWellFormed(parameters, reader))
            && (q.Some? ==> forall i: nat :: LastQuality(parameters, i, reader) ==> q == QualityValue(parameters[i], reader))
            && ((forall p :: p in parameters ==> !IsQuality(p, reader)) ==> q == Some(1.0))
  {
    FoundIffWellFormed(parameters, reader);
    hide QualityOf, AllWellFormed, IsQuality, QualityValue;
    if QualityOf(parameters, reader).Some? {
      forall i: nat | LastQuality(parameters, i, reader)
        ensures QualityOf(parameters, reader) == QualityValue(parameters[i], reader)
      {
        LastCounts(parameters, i, reader);
      }
    }
    if forall p :: p in parameters ==> !IsQuality(p, reader) {
      NoneIsOne(parameters, reader);
    }
  }

  method ParseQualityParameter(parameters: seq<string>, reader: Reader) returns (quality: Option<real>)
    ensures quality == QualityOf(parameters, reader)
  {
    var current := 1.0;
    var n := 0;
    assert parameters[..0] == [];
    while n < |parameters|
      invariant 0 <= n <= |parameters|
      invariant QualityOf(parameters[..n], reader) == Some(current)
    {
      hide IsQuality, QualityValue;
      assert parameters[..n + 1][..n] == parameters[..n];
      if IsQuality(parameters[n], reader) {
        var value := QualityValue(parameters[n], reader);
        if value.None? {
          MalformedStays(parameters, n + 1, reader);
          return None;
        }
        current := value.value;
      }
      n := n + 1;
    }
    assert parameters[..n] == parameters;
    quality := Some(current);
  }

  datatype Entry = Ignored | Entry(token: string, q: real)

  function ReadEntry(raw: string, reader: Reader): (e: Entry)
    ensures e.Entry? ==> 0.0 <= e.q <= 1.0
  {
    var parts := Split(raw, ';');
    var token, quality := reader.clean(parts[0]), QualityOf(parts[1..], reader);
    if token == "" || quality.None? then Ignored else Entry(token, quality.value)
  }

  /** An entry is what precedes its first semicolon, cleaned and not blank, with the quality of the parameters after it. */
  lemma EntryIs(head: string, rest: string, token: string, q: real, reader: Reader)
    requires ';' !in head
    ensures ReadEntry(head, reader) == Entry(token, q) <==> token == reader.clean(head) != "" && q == 1.0
    ensures ReadEntry(head + ";" + rest, reader) == Entry(token, q) <==>
            token == reader.clean(head) != "" && QualityOf(Split(rest, ';'), reader) == Some(q)
  {
    SplitFront(head, rest, ';');
    SplitPlain(head, ';');
    hide Split;
    assert head + ";" + rest == head + [';'] + rest;
    assert ([head] + Split(rest, ';'))[1..] == Split(rest, ';');
    assert [head][1..] == [];
  }

  // ---------------------------------------------------------------- the header as a set of entries

  /** The well-formed entries, whatever their order and repetition. */
  function EntrySet(raws: seq<string>, reader: Reader): set<(string, real)> {
    set raw | raw in raws && ReadEntry(raw, reader).Entry? :: (ReadEntry(raw, reader).token, ReadEntry(raw, reader).q)
  }

  /** A zero absorbs; otherwise the greatest quality counts. */
  ghost predicate Summarizes(entries: set<(string, real)>, token: string, q: real) {
    && (token, q) in entries
    && (q != 0.0 ==> (token, 0.0) !in entries && forall x :: (token, x) in entries ==> x <= q)
  }

  ghost predicate Mentions(entries: set<(string, real)>, token: string) {
    exists x :: (token, x) in entries
  }

  lemma SummaryIsUnique(entries: set<(string, real)>, token: string, p: real, q: real)
    requires Summarizes(entries, token, p) && Summarizes(entries, token, q)
    ensures p == q
  {
  }

  function Combined(current: Option<real>, q: real): real {
    if current == Some(0.0) || q == 0.0 then 0.0
    else if current.Some? && current.value > q then current.value else q
  }

  function Lookup(qualities: map<string, real>, token: string): Option<real> {
    if token in qualities then Some(qualities[token]) else None
  }

  /** The map agrees with the entry set: present exactly for mentioned tokens, with their summaries. */
  ghost predicate Agrees(qualities: map<string, real>, entries: set<(string, real)>) {
    && (forall t :: t in qualities ==> Summarizes(entries, t, qualities[t]))
    && (forall t, x :: (t, x) in entries ==> t in qualities)
  }

  lemma CombineAgrees(qualities: map<string, real>, entries: set<(string, real)>, token: string, q: real)
    requires Agrees(qualities, entries) && 0.0 <= q
    requires forall t, x :: (t, x) in entries ==> 0.0 <= x
    ensures Agrees(qualities[token := Combined(Lookup(qualities, token), q)], entries + {(token, q)})
  {
    var more, v := entries + {(token, q)}, Combined(Lookup(qualities, token), q);
    CombineSummarizes(entries, token, Lookup(qualities, token), q);
    forall t | t in qualities && t != token
      ensures Summarizes(more, t, qualities[t])
    {
      assert forall x :: (t, x) in more <==> (t, x) in entries;
      assert Summarizes(entries, t, qualities[t]);
    }
    if token !in qualities {
      assert forall x :: (token, x) !in entries;
    }
  }

  lemma CombineSummarizes(entries: set<(string, real)>, token: string, current: Option<real>, q: real)
    requires 0.0 <= q
    requires current.None? ==> !Mentions(entries, token)
    requires current.Some? ==> Summarizes(entries, token, current.value) && current.value >= 0.0
    ensures Summarizes(entries + {(token, q)}, token, Combined(current, q))
  {
    var more, v := entries + {(token, q)}, Combined(current, q);
    assert forall x :: (token, x) in more <==> (token, x) in entries || x == q;
  }

  method ParseAcceptEncoding(header: string, reader: Reader) returns (qualities: map<string, real>)
    ensures Agrees(qualities, EntrySet(Split(header, ','), reader))
  {
    qualities := map[];
    var raws := Split(header, ',');
    var n := 0;
    ghost var entries: set<(string, real)> := {};
    while n < |raws|
      invariant 0 <= n <= |raws|
      invariant entries == EntrySet(raws[..n], reader) && Agrees(qualities, entries)
    {
      NextEntry(raws, n, reader);
      var entry := ReadEntry(raws[n], reader);
      if entry.Entry? {
        CombineAgrees(qualities, entries, entry.token, entry.q);
        qualities := qualities[entry.token := Combined(Lookup(qualities, entry.token), entry.q)];
        entries := entries + {(entry.token, entry.q)};
      }
      n := n + 1;
    }
    assert raws[..n] == raws;
  }

  lemma NextEntry(raws: seq<string>, n: nat, reader: Reader)
    requires n < |raws|
    ensures var before, after, entry := EntrySet(raws[..n], reader), EntrySet(raws[..n + 1], reader), ReadEntry(raws[n], reader);
            && after == (if entry.Entry? then before + {(entry.token, entry.q)} else before)
            && forall t, x :: (t, x) in before ==> 0.0 <= x
  {
    hide ReadEntry;
    assert raws[..n + 1] == raws[..n] + [raws[n]];
  }

  // ---------------------------------------------------------------- selecting

  datatype Encoding = Br | Gzip

  function Name(e: Encoding): string { if e == Br then "br" else "gzip" }

  /** The explicit entry if there is one, else the wildcard. */
  function EncodingQuality(e: Encoding, qualities: map<string, real>): Option<real> {
    if Name(e) in qualities then Some(qualities[Name(e)]) else Lookup(qualities, "*")
  }

  /** The quality where it counts for the selection: positive, or nothing. */
  function Positive(e: Encoding, qualities: map<string, real>): real {
    var q := EncodingQuality(e, qualities);
    if q.Some? && q.value > 0.0 then q.value else 0.0
  }

  /** The same read off the entry set. */
  ghost predicate HasQuality(entries: set<(string, real)>, e: Encoding, q: real) {
    Summarizes(entries, Name(e), q) || (!Mentions(entries, Name(e)) && Summarizes(entries, "*", q))
  }

  function Other(e: Encoding): Encoding { if e == Br then Gzip else Br }

  /** br wins ties. */
  predicate Outranks(e: Encoding, q: real, p: real) { if e == Br then q >= p else q > p }

  ghost predicate ChosenAt(entries: set<(string, real)>, e: Encoding, q: real) {
    q > 0.0 && HasQuality(entries, e, q) && forall p :: HasQuality(entries, Other(e), p) ==> Outranks(e, q, p)
  }

  /** e has a positive quality and outranks the other encoding. */
  ghost predicate Chosen(entries: set<(string, real)>, e: Encoding) {
    exists q :: ChosenAt(entries, e, q)
  }

  lemma QualityFromSet(qualities: map<string, real>, entries: set<(string, real)>, e: Encoding, q: real)
    requires Agrees(qualities, entries)
    ensures HasQuality(entries, e, q) <==> EncodingQuality(e, qualities) == Some(q)
  {
    MentionedIffPresent(qualities, entries, Name(e));
    MentionedIffPresent(qualities, entries, "*");
    if Summarizes(entries, Name(e), q) { SummaryIsUnique(entries, Name(e), q, qualities[Name(e)]); }
    if Summarizes(entries, "*", q) { SummaryIsUnique(entries, "*", q, qualities["*"]); }
  }

  lemma MentionedIffPresent(qualities: map<string, real>, entries: set<(string, real)>, token: string)
    requires Agrees(qualities, entries)
    ensures Mentions(entries, token) <==> token in qualities
    ensures forall q :: Summarizes(entries, token, q) ==> token in qualities
  {
    if token in qualities { assert Summarizes(entries, token, qualities[token]); }
  }

  /** The selected encoding maximizes quality with br winning ties; none is selected exactly when neither is acceptable. */
  method SelectAcceptedContentEncoding(header: string, reader: Reader) returns (selected: Option<Encoding>)
    ensures var entries := EntrySet(Split(header, ','), reader);
            forall e :: selected == Some(e) <==> Chosen(entries, e)
    ensures var entries := EntrySet(Split(header, ','), reader);
            selected.None? <==> forall e, q :: HasQuality(entries, e, q) ==> q <= 0.0
  {
    var qualities := ParseAcceptEncoding(header, reader);
    ghost var entries := EntrySet(Split(header, ','), reader);
    hide EntrySet, Split, Agrees;
    selected := None;
    var selectedQuality := 0.0;
    var supported, n := [Br, Gzip], 0;
    while n < |supported|
      invariant 0 <= n <= 2
      invariant n == 0 ==> selected.None? && selectedQuality == 0.0
      invariant n > 0 ==> selectedQuality >= Positive(Br, qualities)
      invariant n == 1 ==> selectedQuality == Positive(Br, qualities)
      invariant n == 1 ==> selected == if selectedQuality > 0.0 then Some(Br) else None
      invariant n == 2 ==> selected == if Positive(Gzip, qualities) > Positive(Br, qualities) then Some(Gzip)
                                       else if Positive(Br, qualities) > 0.0 then Some(Br) else None
    {
      var quality := EncodingQuality(supported[n], qualities);
      if quality.Some? && quality.value > selectedQuality {
        selected, selectedQuality := Some(supported[n]), quality.value;
      }
      n := n + 1;
    }
    forall e, q
      ensures HasQuality(entries, e, q) <==> EncodingQuality(e, qualities) == Some(q)
    {
      QualityFromSet(qualities, entries, e, q);
    }
    ChosenFrom(qualities, entries, Br);
    ChosenFrom(qualities, entries, Gzip);
  }

  lemma ChosenFrom(qualities: map<string, real>, entries: set<(string, real)>, e: Encoding)
    requires forall d, q :: HasQuality(entries, d, q) <==> EncodingQuality(d, qualities) == Some(q)
    ensures var mine, other := EncodingQuality(e, qualities), EncodingQuality(Other(e), qualities);
            Chosen(entries, e) <==>
            mine.Some? && mine.value > 0.0 && (other.None? || Outranks(e, mine.value, other.value))
  {
    hide HasQuality, EncodingQuality;
    var mine, other := EncodingQuality(e, qualities), EncodingQuality(Other(e), qualities);
    if other.Some? { assert HasQuality(entries, Other(e), other.value); }
    if mine.Some? && mine.value > 0.0 && (other.None? || Outranks(e, mine.value, other.value)) {
      assert ChosenAt(entries, e, mine.value);
    }
    if q :| ChosenAt(entries, e, q) {
      assert mine == Some(q);
    }
  }

  /** The quality of a name: that of its own entries, or of the wildcard's where it has none. */
  ghost predicate Weighs(entries: set<(string, real)>, name: string, q: real) {
    Summarizes(entries, name, q) || ((forall x :: (name, x) !in entries) && Summarizes(entries, "*", q))
  }

  ghost predicate Beats(entries: set<(string, real)>, name: string, rival: string, ties: bool, q: real) {
    q > 0.0 && Weighs(entries, name, q) && forall p :: Weighs(entries, rival, p) ==> p < q || (ties && p == q)
  }

  /** br is chosen with a positive quality not below gzip's, gzip with one above br's. */
  lemma ChosenMeans(entries: set<(string, real)>)
    ensures Chosen(entries, Br) <==> exists q :: Beats(entries, "br", "gzip", true, q)
    ensures Chosen(entries, Gzip) <==> exists q :: Beats(entries, "gzip", "br", false, q)
  {
    forall e, q
      ensures HasQuality(entries, e, q) <==> Weighs(entries, if e == Br then "br" else "gzip", q)
    {
      hide Summarizes;
    }
    forall q
      ensures ChosenAt(entries, Br, q) <==> Beats(entries, "br", "gzip", true, q)
      ensures ChosenAt(entries, Gzip, q) <==> Beats(entries, "gzip", "br", false, q)
    {
      hide HasQuality, Weighs, Name;
      assert forall p :: HasQuality(entries, Other(Br), p) <==> Weighs(entries, "gzip", p);
      assert forall p :: HasQuality(entries, Other(Gzip), p) <==> Weighs(entries, "br", p);
    }
  }

  /** The choice is a function of the entry set: at most one encoding is chosen. */
  lemma ChoiceIsUnique(entries: set<(string, real)>)
    ensures !(Chosen(entries, Br) && Chosen(entries, Gzip))
  {
    if p :| ChosenAt(entries, Br, p) {
      if q :| ChosenAt(entries, Gzip, q) {
        assert p >= q by { assert HasQuality(entries, Other(Br), q); }
        assert HasQuality(entries, Other(Gzip), p);
        assert false;
      }
    }
  }

  /** Reordering or repeating entries leaves the entry set, hence the choice, as it was. */
  lemma OrderAndRepetitionDoNotMatter(raws: seq<string>, others: seq<string>, reader: Reader, e: Encoding)
    requires forall raw :: raw in raws <==> raw in others
    ensures EntrySet(raws, reader) == EntrySet(others, reader)
    ensures Chosen(EntrySet(raws, reader), e) <==> Chosen(EntrySet(others, reader), e)
  {
    hide ReadEntry, Chosen;
  }

  /** An explicit entry overrides the wildcard, whatever the wildcard says. */
  lemma ExplicitOverridesWildcard(entries: set<(string, real)>, e: Encoding, wildcard: set<real>, q: real)
    requires Mentions(entries, Name(e))
    ensures var more := entries + (set x | x in wildcard :: ("*", x));
            HasQuality(more, e, q) <==> HasQuality(entries, e, q)
  {
    var more := entries + (set x | x in wildcard :: ("*", x));
    assert Name(e) != "*" by { assert Name(e)[0] != "*"[0]; }
    assert forall x :: (Name(e), x) in more <==> (Name(e), x) in entries;
  }
}
