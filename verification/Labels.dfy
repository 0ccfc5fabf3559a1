/** Labels: printing, parsing and matching (resources/src/objects/mod.rs). */
module Labels {
  import opened Common

  type LabelMap = map<string, string>

  // ---------- printing ----------

  /** The parts with the separator in between; an iterator's `join`. */
  function Join(parts: seq<string>, sep: char): string {
    if parts == [] then ""
    else if |parts| == 1 then parts[0]
    else parts[0] + [sep] + Join(parts[1..], sep)
  }

  function Entry(key: string, value: string): string { key + ['='] + value }

  function Entries(m: LabelMap, keys: seq<string>): seq<string>
    requires forall k <- keys :: k in m
  {
    if keys == [] then [] else [Entry(keys[0], m[keys[0]])] + Entries(m, keys[1..])
  }

  /** What is printed when the map's iterator yields the keys in this order. */
  function ToString(m: LabelMap, keys: seq<string>): string
    requires forall k <- keys :: k in m
  {
    Join(Entries(m, keys), ',')
  }

  // ---------- parsing ----------

  /** The pieces between separators: at least one, possibly empty ones. */
  function Split(s: string, sep: char): (parts: seq<string>)
    ensures |parts| > 0
  {
    if s == "" then [""]
    else
      var rest := Split(s[1..], sep);
      if s[0] == sep then [""] + rest else [[s[0]] + rest[0]] + rest[1..]
  }

  /** The map the labels build up, or an error at the first one without a value. */
  function Parsed(labels: seq<string>): Option<LabelMap> {
    if labels == [] then Some(map[])
    else
      var parts := Split(labels[|labels| - 1], '=');
      match Parsed(labels[..|labels| - 1])
      case None => None
      case Some(m) => if |parts| < 2 then None else Some(m[parts[0] := parts[1]])
  }

  lemma {:induction false} ParsedPrefix(labels: seq<string>, i: nat)
    requires i <= |labels| && Parsed(labels[..i]).None?
    ensures Parsed(labels).None?
    decreases |labels|
  {
    if i < |labels| {
      assert labels[..|labels| - 1][..i] == labels[..i];
      ParsedPrefix(labels[..|labels| - 1], i);
    } else {
      assert labels[..i] == labels;
    }
  }

  /** A label adds its key, the text before the first '=' sign, with the value after it, up to a second one;
      without an '=' sign it is an error. Later labels win. */
  lemma LaterLabelsWin(labels: seq<string>, text: string) returns (key: string, value: string)
    ensures Parsed([]) == Some(map[])
    ensures '=' in text ==> KeyIs(text, key) && ValueIs(text, key, value)
    ensures Parsed(labels + [text]) ==
      if Parsed(labels).None? || '=' !in text then None else Some(Parsed(labels).value[key := value])
  {
    assert (labels + [text])[..|labels|] == labels;
    if '=' in text {
      key, value := FirstParts(text);
    } else {
      SplitWhole(text, '=');
      key, value := "", "";
    }
  }

  /** The label begins with the key and an '=' sign. */
  predicate KeyIs(text: string, key: string) { '=' !in key && key + ['='] <= text }

  /** What follows is the value, up to the end or another '=' sign. */
  predicate ValueIs(text: string, key: string, value: string) {
    && '=' !in value
    && (text == key + ['='] + value || key + ['='] + value + ['='] <= text)
  }

  /** Splitting at '=' gives the key and the value first. */
  lemma FirstParts(text: string) returns (key: string, value: string)
    requires '=' in text
    ensures var parts := Split(text, '='); |parts| >= 2 && key == parts[0] && value == parts[1]
    ensures KeyIs(text, key) && ValueIs(text, key, value)
  {
    var a, b := CutAt(text, '=');
    SplitAfter(a, b, '=');
    if '=' in b {
      var c, d := CutAt(b, '=');
      SplitAfter(c, d, '=');
      key, value := a, c;
      assert text == (a + ['='] + c + ['=']) + d;
    } else {
      SplitWhole(b, '=');
      key, value := a, b;
    }
    assert text == (a + ['=']) + b;
  }

  lemma {:induction false} CutAt(s: string, sep: char) returns (a: string, b: string)
    requires sep in s
    ensures sep !in a && s == a + [sep] + b
  {
    if s[0] == sep {
      a, b := "", s[1..];
    } else {
      a, b := CutAt(s[1..], sep);
      a := [s[0]] + a;
      assert s == [s[0]] + s[1..];
    }
  }

  method TryFrom(s: string) returns (r: Option<LabelMap>)
    ensures r == Parsed(Split(s, ','))
  {
    var pieces := Split(s, ',');
    var labels: LabelMap := map[];
    for i := 0 to |pieces|
      invariant Parsed(pieces[..i]) == Some(labels)
    {
      assert pieces[..i + 1][..i] == pieces[..i];
      var parts := Split(pieces[i], '=');
      if |parts| < 2 {
        ParsedPrefix(pieces, i + 1);
        return None;
      }
      labels := labels[parts[0] := parts[1]];
    }
    assert pieces[..|pieces|] == pieces;
    r := Some(labels);
  }

  // ---------- matching ----------

  /** The entries of `wanted` are a subset of those of `labels`. */
  predicate Matches(labels: LabelMap, wanted: LabelMap) {
    forall k <- wanted :: k in labels && labels[k] == wanted[k]
  }

  /** Matching is an inclusion of entries. */
  lemma MatchesIff(labels: LabelMap, wanted: LabelMap)
    ensures Matches(labels, wanted) <==> wanted.Items <= labels.Items
  {
    if Matches(labels, wanted) {
      forall item | item in wanted.Items ensures item in labels.Items {
        assert item.0 in wanted;
      }
    }
    if wanted.Items <= labels.Items {
      forall k | k in wanted ensures k in labels && labels[k] == wanted[k] {
        assert (k, wanted[k]) in wanted.Items;
      }
    }
  }

  /** Another label never loses a match, and everything matches no labels. */
  lemma MoreLabelsMatch(labels: LabelMap, wanted: LabelMap, key: string, value: string)
    requires Matches(labels, wanted) && key !in labels
    ensures Matches(labels[key := value], wanted) && Matches(labels, map[])
  {
  }

  lemma MatchesBothWays(a: LabelMap, b: LabelMap)
    ensures Matches(a, b) && Matches(b, a) <==> a == b
  {
    if Matches(a, b) && Matches(b, a) {
      assert a.Keys == b.Keys by {
        assert forall k :: k in a.Keys <==> k in b.Keys;
      }
    }
  }

  // ---------- round trip ----------

  predicate Clean(s: string) { ',' !in s && '=' !in s }

  predicate CleanMap(m: LabelMap) {
    forall k <- m :: Clean(k) && Clean(m[k])
  }

  lemma {:induction false} SplitAfter(a: string, b: string, sep: char)
    requires sep !in a
    ensures Split(a + [sep] + b, sep) == [a] + Split(b, sep)
  {
    var s := a + [sep] + b;
    if a == "" {
      assert s == [sep] + b && s[1..] == b;
    } else {
      assert s[0] == a[0] && s[1..] == a[1..] + [sep] + b;
      SplitAfter(a[1..], b, sep);
      assert [a[0]] + a[1..] == a;
      assert ([a[1..]] + Split(b, sep))[1..] == Split(b, sep);
    }
  }

  lemma {:induction false} SplitWhole(a: string, sep: char)
    requires sep !in a
    ensures Split(a, sep) == [a]
  {
    if a != "" {
      SplitWhole(a[1..], sep);
      assert [a[0]] + a[1..] == a && [a[1..]][1..] == [];
    }
  }

  lemma {:induction false} SplitParts(s: string, sep: char)
    ensures forall p <- Split(s, sep) :: sep !in p && forall c <- p :: c in s
  {
    if s != "" {
      SplitParts(s[1..], sep);
      var rest := Split(s[1..], sep);
      assert rest[0] in rest;
      forall p | p in Split(s, sep) ensures sep !in p && forall c <- p :: c in s {
        if p != "" && p !in rest {
          assert s[0] != sep && p == [s[0]] + rest[0];
        }
      }
    }
  }

  /** Splitting undoes joining, for parts without the separator. */
  lemma {:induction false} SplitUndoesJoin(parts: seq<string>, sep: char)
    requires parts != [] && forall p <- parts :: sep !in p
    ensures Split(Join(parts, sep), sep) == parts
  {
    assert parts[0] in parts;
    if |parts| == 1 {
      SplitWhole(parts[0], sep);
    } else {
      SplitUndoesJoin(parts[1..], sep);
      SplitAfter(parts[0], Join(parts[1..], sep), sep);
      assert parts == [parts[0]] + parts[1..];
    }
  }

  /** Joining undoes splitting, always. */
  lemma {:induction false} JoinUndoesSplit(s: string, sep: char)
    ensures Join(Split(s, sep), sep) == s
  {
    if s != "" {
      JoinUndoesSplit(s[1..], sep);
      var rest := Split(s[1..], sep);
      var parts := Split(s, sep);
      if s[0] == sep {
        assert parts[1..] == rest;
        assert s == [sep] + s[1..] && "" + [sep] == [sep];
      } else {
        assert parts[1..] == rest[1..];
        if |rest| > 1 {
          assert [s[0]] + (rest[0] + [sep] + Join(rest[1..], sep)) == parts[0] + [sep] + Join(parts[1..], sep);
        }
        assert s == [s[0]] + s[1..];
      }
    }
  }

  /** Parsing only ever gives clean maps, and never an empty one. */
  lemma {:induction false} ParsedIsClean(labels: seq<string>)
    requires forall l <- labels :: ',' !in l
    requires Parsed(labels).Some?
    ensures CleanMap(Parsed(labels).value) && (labels != [] ==> Parsed(labels).value != map[])
  {
    if labels != [] {
      var n := |labels| - 1;
      ParsedIsClean(labels[..n]);
      SplitParts(labels[n], '=');
      var parts := Split(labels[n], '=');
      assert parts[0] in parts && parts[1] in parts && labels[n] in labels;
      assert parts[0] in Parsed(labels).value;
    }
  }

  function Restricted(m: LabelMap, keys: seq<string>): LabelMap
    requires forall k <- keys :: k in m
  {
    map k | k in keys :: m[k]
  }

  lemma {:induction false} EntriesMembers(m: LabelMap, keys: seq<string>)
    requires forall k <- keys :: k in m
    requires CleanMap(m)
    ensures |Entries(m, keys)| == |keys|
    ensures forall i :: 0 <= i < |keys| ==> Entries(m, keys)[i] == Entry(keys[i], m[keys[i]])
    ensures forall e <- Entries(m, keys) :: ',' !in e
  {
    if keys != [] {
      assert keys[0] in keys;
      EntriesMembers(m, keys[1..]);
    }
  }

  lemma EntryParses(labels: seq<string>, m: LabelMap, k: string, v: string)
    requires Parsed(labels) == Some(m) && Clean(k) && Clean(v)
    ensures Parsed(labels + [Entry(k, v)]) == Some(m[k := v])
  {
    assert (labels + [Entry(k, v)])[..|labels|] == labels;
    SplitAfter(k, v, '=');
    SplitWhole(v, '=');
  }

  lemma {:induction false} EntriesLast(m: LabelMap, keys: seq<string>, k: string)
    requires k in m && forall k <- keys :: k in m
    ensures Entries(m, keys + [k]) == Entries(m, keys) + [Entry(k, m[k])]
  {
    if keys == [] {
      assert keys + [k] == [k];
    } else {
      assert (keys + [k])[1..] == keys[1..] + [k];
      EntriesLast(m, keys[1..], k);
    }
  }

  lemma {:induction false} ParsedEntries(m: LabelMap, keys: seq<string>)
    requires forall k <- keys :: k in m
    requires CleanMap(m)
    ensures Parsed(Entries(m, keys)) == Some(Restricted(m, keys))
  {
    if keys != [] {
      hide Parsed, Entries;
      var front, k := keys[..|keys| - 1], keys[|keys| - 1];
      assert keys == front + [k];
      ParsedEntries(m, front);
      EntriesLast(m, front, k);
      EntryParses(Entries(m, front), Restricted(m, front), k, m[k]);
      assert Restricted(m, keys) == Restricted(m, front)[k := m[k]];
    }
  }

  /** Parsing what was printed gives the map back, whatever order the map was iterated in, if and only
      if the map is not empty and no key or value contains ',' or '='. */
  lemma RoundTrip(m: LabelMap, keys: seq<string>)
    requires forall k :: k in keys <==> k in m
    ensures Parsed(Split(ToString(m, keys), ',')) == Some(m) <==> m != map[] && CleanMap(m)
  {
    hide Parsed, Split, Entries;
    var s := ToString(m, keys);
    if m != map[] && CleanMap(m) {
      var k :| k in m;
      EntriesMembers(m, keys);
      SplitUndoesJoin(Entries(m, keys), ',');
      ParsedEntries(m, keys);
      assert Restricted(m, keys) == m;
    } else if Parsed(Split(s, ',')) == Some(m) {
      SplitParts(s, ',');
      ParsedIsClean(Split(s, ','));
      assert false;
    }
  }

  /** So every map that parsing gives survives being printed and parsed again. */
  lemma ParsedMapsRoundTrip(s: string, m: LabelMap, keys: seq<string>)
    requires Parsed(Split(s, ',')) == Some(m) && forall k :: k in keys <==> k in m
    ensures Parsed(Split(ToString(m, keys), ',')) == Some(m)
  {
    SplitParts(s, ',');
    ParsedIsClean(Split(s, ','));
    RoundTrip(m, keys);
  }

  /** The empty map prints to a string that does not parse. */
  lemma EmptyDoesNotParse(m: LabelMap)
    requires m == map[]
    ensures ToString(m, []) == "" && Parsed(Split(ToString(m, []), ',')) == None
  {
    var none: seq<string> := [""];
    assert Split("", ',') == none && none[..0] == [];
    assert |Split("", '=')| == 1;
  }
}
