/** The collector of localized strings: equal dictionaries share a slot, and one reference resolves
    in every generated locale. */
module Strings {
  import opened Wire

  type Text = bytes
  type Lang = bytes

  const EN: Lang := [0x65, 0x6E]
  const PER_DESCRIPTOR := 7

  /** A dictionary in authoring order; None is the language-independent key. */
  type Entry = seq<(Option<Lang>, Text)>

  /** What is authored at a field: plain text, or a dictionary. */
  datatype Value = Plain(text: Text) | Dict(items: Entry)

  datatype Ref = Ref(offset: nat, index: nat)

  predicate DistinctNames(e: Entry) {
    forall i, j :: 0 <= i < j < |e| ==> e[i].0 != e[j].0
  }

  predicate WfEntry(e: Entry) {
    e != [] && DistinctNames(e)
  }

  /** A dictionary without its order: what decides whether two are the same. */
  function Content(e: Entry): (m: map<Option<Lang>, Text>)
    ensures forall k :: k in m <==> exists i :: 0 <= i < |e| && e[i].0 == k
    ensures DistinctNames(e) ==> forall i :: 0 <= i < |e| ==> m[e[i].0] == e[i].1
  {
    if e == [] then map[] else
      var n := |e| - 1;
      assert forall i :: 0 <= i < n ==> e[..n][i] == e[i];
      Content(e[..n])[e[n].0 := e[n].1]
  }

  /** The keys of a Python dictionary are distinct. */
  predicate WfValue(v: Value) {
    v.Dict? ==> DistinctNames(v.items)
  }

  /** _as_locale_dict; None where it raises on an empty dictionary. */
  function AsEntry(v: Value): (r: Option<Entry>)
    requires WfValue(v)
    ensures r.Some? ==> WfEntry(r.value)
  {
    if v.Plain? then Some([(None, v.text)]) else if v.items == [] then None else Some(v.items)
  }

  /** _string_for_locale. */
  function StringFor(e: Entry, lang: Lang): (s: Text)
    requires e != []
  {
    if Some(lang) in Content(e) then Content(e)[Some(lang)]
    else if None in Content(e) then Content(e)[None]
    else e[0].1
  }

  /** The text shown is the authored one for a language in the dictionary, otherwise the language-independent one, and
      only without either the first listed. */
  lemma StringForMeaning(e: Entry, lang: Lang)
    requires WfEntry(e)
    ensures forall i :: 0 <= i < |e| && e[i].0 == Some(lang) ==> StringFor(e, lang) == e[i].1
    ensures (forall i :: 0 <= i < |e| ==> e[i].0 != Some(lang)) ==>
              forall i :: 0 <= i < |e| && e[i].0 == None ==> StringFor(e, lang) == e[i].1
    ensures (forall i :: 0 <= i < |e| ==> e[i].0 != Some(lang) && e[i].0 != None) ==> StringFor(e, lang) == e[0].1
    ensures Some(lang) in Content(e) ==> StringFor(e, lang) == Content(e)[Some(lang)]
    ensures exists k :: k in Content(e) && Content(e)[k] == StringFor(e, lang)
  {
    assert e[0].0 in Content(e) && Content(e)[e[0].0] == e[0].1;
  }

  // ---- the table ----

  datatype Table = Table(entries: seq<Entry>, slots: map<map<Option<Lang>, Text>, nat>)

  /** Every slot from 2 on holds a dictionary of its own, and the index finds it. */
  predicate WfTable(t: Table) {
    && |t.entries| >= 2
    && (forall i :: 0 <= i < |t.entries| ==> WfEntry(t.entries[i]))
    && (forall m <- t.slots :: 2 <= t.slots[m] < |t.entries| && Content(t.entries[t.slots[m]]) == m)
    && (forall i :: 2 <= i < |t.entries| ==> Content(t.entries[i]) in t.slots && t.slots[Content(t.entries[i])] == i)
  }

  function SlotOf(t: Table, e: Entry): (s: nat) {
    if Content(e) in t.slots then t.slots[Content(e)] else |t.entries|
  }

  function AfterAdd(t: Table, v: Value): (t': Table)
    requires WfValue(v)
  {
    var e := AsEntry(v);
    if e.None? || Content(e.value) in t.slots then t
    else Table(t.entries + [e.value], t.slots[Content(e.value) := |t.entries|])
  }

  lemma AddKeepsTable(t: Table, v: Value)
    requires WfTable(t) && WfValue(v)
    ensures WfTable(AfterAdd(t, v)) && t.entries <= AfterAdd(t, v).entries
    ensures AsEntry(v).Some? ==>
              var s, t' := SlotOf(t, AsEntry(v).value), AfterAdd(t, v);
              2 <= s < |t'.entries| && Content(t'.entries[s]) == Content(AsEntry(v).value)
  {
    hide Content, DistinctNames;
  }

  // ---- the collector ----

  class LocalizedStrings {
    var entries: seq<Entry>
    var slots: map<map<Option<Lang>, Text>, nat>
    var authored: bool

    function View(): (t: Table)
      reads this
    {
      Table(entries, slots)
    }

    /** The vendor and model names take slots 0 and 1. */
    constructor (vendor: Entry, model: Entry)
      requires WfEntry(vendor) && WfEntry(model)
      ensures WfTable(View()) && entries == [vendor, model] && slots == map[] && !authored
    {
      entries := [vendor, model];
      slots := map[];
      authored := false;
    }

    method Add(v: Value) returns (r: Option<Ref>)
      requires WfTable(View()) && WfValue(v)
      modifies this
      ensures WfTable(View()) && View() == AfterAdd(old(View()), v)
      ensures r == if AsEntry(v).None? then None else
                     var s := SlotOf(old(View()), AsEntry(v).value); Some(Ref(s / PER_DESCRIPTOR, s % PER_DESCRIPTOR))
      ensures authored == (old(authored) || r.Some?)
    {
      hide Content, WfTable;
      AddKeepsTable(View(), v);
      var e := AsEntry(v);
      if e.None? {
        return None;
      }
      var key := Content(e.value);
      var slot;
      if key in slots {
        slot := slots[key];
      } else {
        entries := entries + [e.value];
        slot := |entries| - 1;
        slots := slots[key := slot];
      }
      authored := true;
      r := Some(Ref(slot / PER_DESCRIPTOR, slot % PER_DESCRIPTOR));
    }

    /** build_locales. */
    method BuildLocales() returns (locales: seq<Locale>)
      requires WfTable(View())
      ensures locales == LocalesOf(entries)
    {
      hide Collected, Noted, Chunks, StringFor, Content;
      var es := entries;
      var languages := FindLanguages(es);
      if languages == [] {
        languages := [EN];
      }
      locales := [];
      for i := 0 to |languages|
        invariant |locales| == i && forall k :: 0 <= k < i ==> locales[k] == LocaleFor(es, languages[k])
      {
        var strings := TextsFor(es, languages[i]);
        var chunks := MakeChunks(strings);
        locales := locales + [Locale(languages[i], chunks)];
      }
    }
  }

  /** The languages in the order in which they first appear. */
  method FindLanguages(es: seq<Entry>) returns (languages: seq<Lang>)
    ensures languages == Collected(es)
  {
    hide Content;
    languages := [];
    for i := 0 to |es|
      invariant languages == Collected(es[..i])
    {
      assert es[..i + 1][..i] == es[..i];
      languages := NoteLanguages(languages, es[i]);
    }
    assert es[..|es|] == es;
  }

  method NoteLanguages(before: seq<Lang>, e: Entry) returns (languages: seq<Lang>)
    ensures languages == Noted(before, e)
  {
    languages := before;
    for j := 0 to |e|
      invariant languages == Noted(before, e[..j])
    {
      assert e[..j + 1][..j] == e[..j];
      if e[j].0.Some? && e[j].0.value !in languages {
        languages := languages + [e[j].0.value];
      }
    }
    assert e[..|e|] == e;
  }

  // ---- locales ----

  datatype Locale = Locale(identifier: Lang, descriptors: seq<seq<Text>>)

  /** The languages of an entry, added at the end where they are new. */
  function Noted(langs: seq<Lang>, e: Entry): (r: seq<Lang>) {
    if e == [] then langs else
      var n := |e| - 1;
      var before := Noted(langs, e[..n]);
      if e[n].0.Some? && e[n].0.value !in before then before + [e[n].0.value] else before
  }

  function Collected(es: seq<Entry>): (r: seq<Lang>) {
    if es == [] then [] else Noted(Collected(es[..|es| - 1]), es[|es| - 1])
  }

  function LanguagesOf(es: seq<Entry>): (r: seq<Lang>) {
    if Collected(es) == [] then [EN] else Collected(es)
  }

  predicate Distinct(s: seq<Lang>) {
    forall i, j :: 0 <= i < j < |s| ==> s[i] != s[j]
  }

  predicate Speaks(e: Entry, lang: Lang) {
    exists i :: 0 <= i < |e| && e[i].0 == Some(lang)
  }

  lemma {:induction false} NotedMeaning(langs: seq<Lang>, e: Entry, lang: Lang)
    ensures Distinct(langs) ==> Distinct(Noted(langs, e))
    ensures lang in Noted(langs, e) <==> lang in langs || Speaks(e, lang)
  {
    if e != [] {
      var n := |e| - 1;
      NotedMeaning(langs, e[..n], lang);
      assert Speaks(e, lang) <==> Speaks(e[..n], lang) || e[n].0 == Some(lang) by {
        if i :| 0 <= i < |e| && e[i].0 == Some(lang) {
          assert i < n ==> e[..n][i] == e[i];
        }
        if i :| 0 <= i < n && e[..n][i].0 == Some(lang) {
          assert e[i].0 == Some(lang);
        }
      }
    }
  }

  /** The languages are exactly those some entry speaks, each once. */
  lemma {:induction false} CollectedMeaning(es: seq<Entry>, lang: Lang)
    ensures Distinct(Collected(es))
    ensures lang in Collected(es) <==> exists i :: 0 <= i < |es| && Speaks(es[i], lang)
  {
    hide Noted, Speaks;
    if es != [] {
      var n := |es| - 1;
      CollectedMeaning(es[..n], lang);
      NotedMeaning(Collected(es[..n]), es[n], lang);
      if i :| 0 <= i < |es| && Speaks(es[i], lang) {
        assert i < n ==> es[..n][i] == es[i];
      }
      if i :| 0 <= i < n && Speaks(es[..n][i], lang) {
        assert Speaks(es[i], lang);
      }
    }
  }

  /** Where no language is spoken there is one locale, "en". */
  lemma DefaultLanguage(es: seq<Entry>)
    requires forall i, lang :: 0 <= i < |es| ==> !Speaks(es[i], lang)
    ensures LanguagesOf(es) == [[0x65, 0x6E]]
  {
    hide Collected, Speaks;
    if Collected(es) != [] {
      CollectedMeaning(es, Collected(es)[0]);
    }
  }

  /** The languages spoken, entry by entry, in authoring order. */
  function Spoken(es: seq<Entry>): (names: seq<Lang>) {
    if es == [] then [] else Spoken(es[..|es| - 1]) + SpokenIn(es[|es| - 1])
  }

  function SpokenIn(e: Entry): (names: seq<Lang>) {
    if e == [] then [] else
      var n := |e| - 1;
      SpokenIn(e[..n]) + if e[n].0.Some? then [e[n].0.value] else []
  }

  /** The list has what was spoken, in the order of first appearance. */
  ghost predicate InOrder(langs: seq<Lang>, names: seq<Lang>) {
    && (forall p :: 0 <= p < |names| ==> names[p] in langs)
    && (forall p, i, j :: 0 <= i < j < |langs| && 0 <= p < |names| && names[p] == langs[j] ==> langs[i] in names[..p])
    && (forall i :: 0 <= i < |langs| ==> langs[i] in names)
  }

  lemma OneMoreName(langs: seq<Lang>, names: seq<Lang>, l: Lang)
    requires InOrder(langs, names)
    ensures InOrder(if l in langs then langs else langs + [l], names + [l])
  {
    var langs', names' := if l in langs then langs else langs + [l], names + [l];
    forall p, i, j | 0 <= i < j < |langs'| && 0 <= p < |names'| && names'[p] == langs'[j] ensures langs'[i] in names'[..p] {
      if p < |names| {
        assert names'[..p] == names[..p] && names[p] in langs;
      } else {
        assert names'[..p] == names && langs'[i] == langs[i];
      }
    }
    forall i | 0 <= i < |langs'| ensures langs'[i] in names' {
      assert i < |langs| ==> langs[i] in names;
      assert names'[|names|] == l;
    }
  }

  lemma {:induction false} NotedInOrder(langs: seq<Lang>, names: seq<Lang>, e: Entry)
    requires InOrder(langs, names)
    ensures InOrder(Noted(langs, e), names + SpokenIn(e))
  {
    hide InOrder;
    if e == [] {
      assert names + SpokenIn(e) == names;
    } else {
      var n := |e| - 1;
      NotedInOrder(langs, names, e[..n]);
      if e[n].0.Some? {
        OneMoreName(Noted(langs, e[..n]), names + SpokenIn(e[..n]), e[n].0.value);
        assert names + SpokenIn(e) == names + SpokenIn(e[..n]) + [e[n].0.value];
      } else {
        assert SpokenIn(e) == SpokenIn(e[..n]);
      }
    }
  }

  /** The languages come in the order in which they are first spoken. */
  lemma {:induction false} CollectedInOrder(es: seq<Entry>)
    ensures InOrder(Collected(es), Spoken(es))
  {
    if es != [] {
      CollectedInOrder(es[..|es| - 1]);
      NotedInOrder(Collected(es[..|es| - 1]), Spoken(es[..|es| - 1]), es[|es| - 1]);
    }
  }

  function ChunkCount(n: nat): (k: nat) {
    (n + PER_DESCRIPTOR - 1) / PER_DESCRIPTOR
  }

  /** Strings seven to a descriptor, the last one maybe shorter. */
  function Chunks(s: seq<Text>): (r: seq<seq<Text>>)
    ensures |r| == ChunkCount(|s|)
  {
    seq(ChunkCount(|s|), k requires 0 <= k < ChunkCount(|s|) => ChunkAt(s, k))
  }

  function ChunkAt(s: seq<Text>, k: nat): (r: seq<Text>)
    requires k < ChunkCount(|s|)
    ensures 0 < |r| <= PER_DESCRIPTOR
  {
    var a := PER_DESCRIPTOR * k;
    if a + PER_DESCRIPTOR <= |s| then s[a..a + PER_DESCRIPTOR] else s[a..]
  }

  method MakeChunks(s: seq<Text>) returns (chunks: seq<seq<Text>>)
    ensures chunks == Chunks(s)
  {
    chunks := [];
    var i := 0;
    while i < |s|
      invariant i == PER_DESCRIPTOR * |chunks| && |chunks| <= ChunkCount(|s|)
      invariant forall k :: 0 <= k < |chunks| ==> chunks[k] == ChunkAt(s, k)
    {
      chunks := chunks + [if i + PER_DESCRIPTOR <= |s| then s[i..i + PER_DESCRIPTOR] else s[i..]];
      i := i + PER_DESCRIPTOR;
    }
  }

  /** Seven to a descriptor, string s is string s % 7 of descriptor s / 7. */
  lemma ChunkHolds(s: seq<Text>, i: nat)
    requires i < |s|
    ensures i / PER_DESCRIPTOR < |Chunks(s)| && i % PER_DESCRIPTOR < |Chunks(s)[i / PER_DESCRIPTOR]|
    ensures Chunks(s)[i / PER_DESCRIPTOR][i % PER_DESCRIPTOR] == s[i]
  {
  }

  function TextsFor(es: seq<Entry>, lang: Lang): (r: seq<Text>)
    requires forall i :: 0 <= i < |es| ==> es[i] != []
    ensures |r| == |es|
  {
    seq(|es|, j requires 0 <= j < |es| => StringFor(es[j], lang))
  }

  function LocaleFor(es: seq<Entry>, lang: Lang): (l: Locale)
    requires forall i :: 0 <= i < |es| ==> es[i] != []
  {
    Locale(lang, Chunks(TextsFor(es, lang)))
  }

  function LocalesOf(es: seq<Entry>): (r: seq<Locale>)
    requires forall i :: 0 <= i < |es| ==> es[i] != []
    ensures |r| == |LanguagesOf(es)|
  {
    seq(|LanguagesOf(es)|, i requires 0 <= i < |LanguagesOf(es)| => LocaleFor(es, LanguagesOf(es)[i]))
  }

  // ---- every run of adds ----

  function AddAll(t: Table, vs: seq<Value>): (t': Table)
    requires forall v <- vs :: WfValue(v)
  {
    if vs == [] then t else AfterAdd(AddAll(t, vs[..|vs| - 1]), vs[|vs| - 1])
  }

  lemma {:induction false} AddAllKeeps(t: Table, vs: seq<Value>)
    requires WfTable(t) && forall v <- vs :: WfValue(v)
    ensures WfTable(AddAll(t, vs)) && t.entries <= AddAll(t, vs).entries
  {
    hide WfTable, WfValue, AfterAdd;
    if vs != [] {
      var n := |vs| - 1;
      assert forall v <- vs[..n] :: v in vs;
      AddAllKeeps(t, vs[..n]);
      assert vs[n] in vs;
      AddKeepsTable(AddAll(t, vs[..n]), vs[n]);
    }
  }

  /** The slot the i-th add hands out. */
  function SlotGiven(t: Table, vs: seq<Value>, i: nat): (s: nat)
    requires i < |vs| && (forall v <- vs :: WfValue(v)) && AsEntry(vs[i]).Some?
  {
    assert forall v <- vs[..i] :: v in vs;
    SlotOf(AddAll(t, vs[..i]), AsEntry(vs[i]).value)
  }

  lemma AtLeastTwo(t: Table)
    requires WfTable(t)
    ensures |t.entries| >= 2
  {
  }

  /** Whatever is added later, a slot once handed out still holds the dictionary it was handed out
      for; slots 0 and 1 keep the vendor and model names. */
  lemma {:induction false} SlotsStayValid(t: Table, vs: seq<Value>, i: nat)
    requires WfTable(t) && (forall v <- vs :: WfValue(v)) && i < |vs| && AsEntry(vs[i]).Some?
    ensures var s, f := SlotGiven(t, vs, i), AddAll(t, vs);
            2 <= s < |f.entries| && Content(f.entries[s]) == Content(AsEntry(vs[i]).value)
    ensures AddAll(t, vs).entries[..2] == t.entries[..2]
  {
    hide WfValue, AfterAdd, Content, WfEntry, AsEntry, WfTable, SlotOf;
    var n := |vs| - 1;
    AtLeastTwo(t);
    assert forall v <- vs[..n] :: v in vs;
    assert vs[n] in vs;
    AddAllKeeps(t, vs);
    AddAllKeeps(t, vs[..n]);
    AddKeepsTable(AddAll(t, vs[..n]), vs[n]);
    if i < n {
      SlotsStayValid(t, vs[..n], i);
      assert vs[..n][..i] == vs[..i];
    }
  }

  /** A reference never looks like NO_STRING, and survives packing exactly below the 13-bit limit. */
  lemma ReferencesPack(slot: nat)
    ensures PackRef(slot / PER_DESCRIPTOR, slot % PER_DESCRIPTOR) != 0xFFFF
    ensures UnpackRef(PackRef(slot / PER_DESCRIPTOR, slot % PER_DESCRIPTOR)) == (slot / PER_DESCRIPTOR, slot % PER_DESCRIPTOR)
            <==> slot < PER_DESCRIPTOR * 0x2000
  {
    RefRoundTrip(slot / PER_DESCRIPTOR, slot % PER_DESCRIPTOR);
  }
}
