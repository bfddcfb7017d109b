/** References in compiled entities: from a slot of the collector to the octets of a STRINGS
    descriptor. */
module StringTheorems {
  import opened Wire
  import opened Utf8
  import opened AemModel
  import opened Pools
  import opened Counts
  import opened Stages
  import opened Unflatten
  import Strings

  // ---- STRINGS and LOCALE descriptors ----

  function Padded(chunk: seq<Strings.Text>, i: nat): (s: Strings.Text) {
    if i < |chunk| then chunk[i] else []
  }

  /** _serialize_strings: seven 64-octet strings, missing ones empty. */
  function StringsParts(chunk: seq<Strings.Text>): (r: seq<bytes>)
    ensures |r| == 7 && forall p <- r :: |p| == 64
  {
    seq(7, i requires 0 <= i < 7 => String64(Padded(chunk, i)))
  }

  function StringsOctets(chunk: seq<Strings.Text>): (r: bytes) {
    Join(StringsParts(chunk))
  }

  function StringsLeaves(chunks: seq<seq<Strings.Text>>): (r: seq<Leaf>)
    ensures |r| == |chunks|
  {
    seq(|chunks|, k requires 0 <= k < |chunks| => Leaf(StringsOctets(chunks[k]), None))
  }

  function LocaleGroup(l: Strings.Locale): (g: Group) {
    Group(String64(l.identifier), StringsLeaves(l.descriptors), None)
  }

  function LocaleGroups(ls: seq<Strings.Locale>): (r: seq<Group>)
    ensures |r| == |ls|
  {
    seq(|ls|, i requires 0 <= i < |ls| => LocaleGroup(ls[i]))
  }

  /** Reading string i of a STRINGS descriptor. */
  lemma StringReadsBack(chunk: seq<Strings.Text>, i: nat)
    requires i < |chunk| <= 7
    ensures 64 * i + 64 <= |StringsOctets(chunk)|
    ensures TextAt(StringsOctets(chunk), 64 * i) == Unpacked(String64(chunk[i]))
  {
    hide Join, String64, Unpacked;
    var parts := StringsParts(chunk);
    RecordAt([], parts, [], 64, i);
    assert [] + Join(parts) + [] == Join(parts);
  }

  // ---- groups in the pools ----

  /** Group i and its members, where the walk put them. */
  lemma {:induction false} GroupInPlace(P: Pools, t: nat, m: nat, gs: seq<Group>, i: nat, k: nat)
    requires t != m && i < |gs| && k < |gs[i].members|
    ensures var F := AddGroups(P, t, m, gs);
            && Size(P, t) + i < Size(F, t)
            && var r := RangeOf(At(F, t)[Size(P, t) + i].body, 0);
               && r.count == |gs[i].members| && r.base + r.count <= Size(F, m)
               && At(F, m)[r.base + k].body == Body([], [], gs[i].members[k].octets)
  {
    hide AddGroup, GroupBody, RangeOf;
    var n := |gs| - 1;
    var Q, F := AddGroups(P, t, m, gs[..n]), AddGroups(P, t, m, gs);
    GroupsGrow(P, t, m, gs[..n]);
    GroupGrows(Q, t, m, gs[n]);
    ExtendsAt(Q, F, t);
    ExtendsAt(Q, F, m);
    if i < n {
      GroupInPlace(P, t, m, gs[..n], i, k);
    } else {
      GroupsNumbered(P, t, m, gs[..n]);
      LastGroupInPlace(Q, t, m, gs[n], k);
    }
  }

  lemma {:induction false} GroupsNumbered(P: Pools, t: nat, m: nat, gs: seq<Group>)
    requires t != m
    ensures Size(AddGroups(P, t, m, gs), t) == Size(P, t) + |gs|
  {
    hide AddGroup;
    if gs != [] {
      var n := |gs| - 1;
      GroupsNumbered(P, t, m, gs[..n]);
      OneGroup(AddGroups(P, t, m, gs[..n]), t, m, gs[n]);
    }
  }

  lemma OneGroup(P: Pools, t: nat, m: nat, g: Group)
    requires t != m
    ensures At(AddGroup(P, t, m, g), t) == At(P, t) + [Item(GroupBody(P, m, g), g.symbol)]
    ensures At(AddGroup(P, t, m, g), m) == At(P, m) + LeafItems(g.members)
  {
  }

  lemma LastGroupInPlace(P: Pools, t: nat, m: nat, g: Group, k: nat)
    requires t != m && k < |g.members|
    ensures var F := AddGroup(P, t, m, g);
            && Size(P, t) < Size(F, t)
            && var r := RangeOf(At(F, t)[Size(P, t)].body, 0);
               && r.count == |g.members| && r.base + r.count <= Size(F, m)
               && At(F, m)[r.base + k].body == Body([], [], g.members[k].octets)
  {
    hide AddGroup, LeafItems;
    OneGroup(P, t, m, g);
  }

  // ---- resolving a reference ----

  /** What a controller reads for a reference in locale i: the STRINGS descriptor at that locale's
      base plus the offset, and in it the string at the index. */
  ghost function Resolved(F: Pools, i: nat, ref: Strings.Ref): (s: Option<bytes>) {
    if i >= Size(F, LOCALE) then None else
      var at := RangeOf(At(F, LOCALE)[i].body, 0).base + ref.offset;
      if at >= Size(F, STRINGS) || 64 * ref.index + 64 > |At(F, STRINGS)[at].body.tail| then None
      else Some(TextAt(At(F, STRINGS)[at].body.tail, 64 * ref.index))
  }

  lemma LocalesOnly(c: Configuration)
    requires WfConfiguration(c)
    ensures var P, F := Stage(c, 3), AddConfiguration(c);
            && Size(P, LOCALE) == 0
            && At(F, LOCALE) == At(AddGroups(P, LOCALE, STRINGS, c.locales), LOCALE)
            && At(F, STRINGS) == At(AddGroups(P, LOCALE, STRINGS, c.locales), STRINGS)
  {
    hide AddConfiguration, WfConfiguration, AddGroups, AddOwners;
    OneStage(c, 3, LOCALE);
    OneStage(c, 3, STRINGS);
    assert Stage(c, 4) == AddGroups(Stage(c, 3), LOCALE, STRINGS, c.locales);
  }

  /** Slot s resolves, in locale i of the compiled configuration, to the text of that locale's
      language as far as a 64-octet field keeps it. */
  lemma SlotResolves(c: Configuration, es: seq<Strings.Entry>, i: nat, s: nat)
    requires WfConfiguration(c) && (forall k :: 0 <= k < |es| ==> es[k] != []) && s < |es|
    requires c.locales == LocaleGroups(Strings.LocalesOf(es)) && i < |Strings.LanguagesOf(es)|
    ensures var text := Strings.StringFor(es[s], Strings.LanguagesOf(es)[i]);
            && Resolved(AddConfiguration(c), i, Strings.Ref(s / 7, s % 7)) == Some(Unpacked(String64(text)))
            && (WellFormed(text) ==> (Resolved(AddConfiguration(c), i, Strings.Ref(s / 7, s % 7)) == Some(text) <==> Fits64(text)))
  {
    hide AddConfiguration, WfConfiguration, AddGroups, Stage, String64, Unpacked, StringsOctets, Strings.StringFor,
         Strings.LanguagesOf, Strings.Chunks, RangeOf, TextAt, WellFormed, Fits64;
    var lang := Strings.LanguagesOf(es)[i];
    var texts := Strings.TextsFor(es, lang);
    var l := Strings.LocalesOf(es)[i];
    assert l == Strings.LocaleFor(es, lang);
    Strings.ChunkHolds(texts, s);
    ChunkSizes(texts, s / 7);
    var k, g := s / 7, c.locales[i];
    assert g == LocaleGroup(l) && g.members[k] == Leaf(StringsOctets(l.descriptors[k]), None);
    LocalesOnly(c);
    GroupInPlace(Stage(c, 3), LOCALE, STRINGS, c.locales, i, k);
    StringReadsBack(l.descriptors[k], s % 7);
    if WellFormed(texts[s]) {
      FieldGivesBack(texts[s]);
    }
  }

  lemma ChunkSizes(texts: seq<Strings.Text>, k: nat)
    requires k < |Strings.Chunks(texts)|
    ensures |Strings.Chunks(texts)[k]| <= 7
  {
  }

  /** Every reference ever handed out: after all adds, in every locale generated from the table, it
      resolves to the authored text for a language in its dictionary and otherwise to one of that
      dictionary's own texts (each as far as a 64-octet field keeps it). */
  lemma ReferenceResolves(c: Configuration, t: Strings.Table, vs: seq<Strings.Value>, j: nat, i: nat)
    requires Strings.WfTable(t) && (forall v <- vs :: Strings.WfValue(v)) && j < |vs| && Strings.AsEntry(vs[j]).Some?
    requires WfConfiguration(c) && Strings.WfTable(Strings.AddAll(t, vs))
    requires c.locales == LocaleGroups(Strings.LocalesOf(Strings.AddAll(t, vs).entries))
    requires i < |Strings.LanguagesOf(Strings.AddAll(t, vs).entries)|
    ensures var s, lang := Strings.SlotGiven(t, vs, j), Strings.LanguagesOf(Strings.AddAll(t, vs).entries)[i];
            var dict := Strings.Content(Strings.AsEntry(vs[j]).value);
            var r := Resolved(AddConfiguration(c), i, Strings.Ref(s / 7, s % 7));
            && (Some(lang) in dict ==> r == Some(Unpacked(String64(dict[Some(lang)]))))
            && exists k :: k in dict && r == Some(Unpacked(String64(dict[k])))
  {
    hide AddConfiguration, WfConfiguration, Resolved, String64, Unpacked, WellFormed, Fits64, Strings.LanguagesOf, Strings.LocalesOf,
         Strings.Content, Strings.AddAll, LocaleGroups;
    var f, s := Strings.AddAll(t, vs), Strings.SlotGiven(t, vs, j);
    var lang := Strings.LanguagesOf(f.entries)[i];
    Strings.SlotsStayValid(t, vs, j);
    SlotResolves(c, f.entries, i, s);
    Strings.StringForMeaning(f.entries[s], lang);
  }
}
