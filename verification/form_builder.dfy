/** The form-template builder: a template is an ordered list of sections,
    a section an ordered list of fields, a choice field an ordered list of
    option texts. Every editing action replaces the list by a new one in
    which only the addressed section / field / option differs; saving checks
    the whole template. Fresh ids and the clock are parameters. */
module FormBuilder {
  import opened Wrappers
  import opened Text
  import Seqs

  // ---------------------------------------------------------------------
  // Data model

  datatype FieldType = TextInput | NumberInput | Radio | Checkbox | Select | Textarea | DateInput

  /** Radio buttons, checkboxes and drop-downs are the types that carry options. */
  predicate IsChoice(t: FieldType)
  {
    t == Radio || t == Checkbox || t == Select
  }

  /** `options` and `placeholder` are optional properties of the record:
      `None` is an absent (undefined) property. */
  datatype FormField = FormField(
    id: string,
    caption: string,
    fieldType: FieldType,
    required: bool,
    options: Option<seq<string>>,
    placeholder: Option<string>)

  datatype FormSection = FormSection(id: string, title: string, fields: seq<FormField>)

  /** One question of the bundled catalog; a missing or null sub-item is `None`. */
  datatype Question = Question(activity: string, item: string, subitem: Option<string>)

  /** One key of the catalog object with its questions, in `Object.entries` order. */
  datatype CatalogEntry = CatalogEntry(key: string, items: seq<Question>)

  predicate HasField(fields: seq<FormField>, fieldId: string)
  {
    exists j :: 0 <= j < |fields| && fields[j].id == fieldId
  }

  /** No id occurs twice among the sections. */
  predicate DistinctSectionIds(sections: seq<FormSection>)
  {
    forall i, j :: 0 <= i < |sections| && 0 <= j < |sections| && sections[i].id == sections[j].id ==> i == j
  }

  // ---------------------------------------------------------------------
  // From the question catalog to builder sections

  function NonEmpty(s: string): bool
  {
    s != ""
  }

  /** The label of a catalog question: activity, item and sub-item with the
      empty (falsy) ones dropped, joined by " - ". */
  function QuestionLabel(q: Question): (caption: string)
    ensures q.activity != "" && q.item != "" && q.subitem.GetOr("") == "" ==> caption == q.activity + " - " + q.item
    ensures q.activity != "" && q.item != "" && q.subitem.GetOr("") != "" ==>
              caption == q.activity + " - " + q.item + " - " + q.subitem.value
    ensures q.activity == "" && q.item == "" && q.subitem.GetOr("") == "" ==> caption == ""
    ensures q.activity == "" && q.item != "" && q.subitem.GetOr("") == "" ==> caption == q.item
    ensures var a, i, s := q.activity, q.item, q.subitem.GetOr("");
            caption == Join((if a != "" then [a] else []) + (if i != "" then [i] else []) + (if s != "" then [s] else []), " - ")
  {
    var parts := [q.activity, q.item, q.subitem.GetOr("")];
    FilterOfThree(q.activity, q.item, q.subitem.GetOr(""));
    var kept := Seqs.Filter(parts, NonEmpty);
    JoinOfTwoAndThree(kept, " - ");
    Join(kept, " - ")
  }

  lemma FilterOfThree(a: string, b: string, c: string)
    ensures Seqs.Filter([a, b, c], NonEmpty)
         == (if a != "" then [a] else []) + (if b != "" then [b] else []) + (if c != "" then [c] else [])
  {
    assert [a, b, c][1..] == [b, c];
    assert [b, c][1..] == [c];
    assert [c][1..] == [];
    var f3 := Seqs.Filter([c], NonEmpty);
    assert f3 == (if c != "" then [c] else []);
    var f2 := Seqs.Filter([b, c], NonEmpty);
    assert f2 == (if b != "" then [b] else []) + f3;
    assert Seqs.Filter([a, b, c], NonEmpty) == (if a != "" then [a] else []) + f2;
  }

  lemma JoinOfTwoAndThree(parts: seq<string>, sep: string)
    ensures |parts| == 2 ==> Join(parts, sep) == parts[0] + sep + parts[1]
    ensures |parts| == 3 ==> Join(parts, sep) == parts[0] + sep + parts[1] + sep + parts[2]
  {
    if |parts| == 3 {
      assert parts[1..][1..] == [parts[2]];
    }
  }

  /** The section title of a catalog key: the first "form_" removed, then " 項". */
  function SectionTitle(key: string): (title: string)
    ensures |key| >= 5 && key[..5] == "form_" ==> title == key[5..] + " 項"
    ensures (forall k :: 0 <= k <= |key| ==> !OccursAt(key, "form_", k)) ==> title == key + " 項"
    ensures forall k: nat :: IsFirstOccurrence(key, "form_", k) ==> title == key[..k] + key[k + 5..] + " 項"
  {
    ReplaceFirst(key, "form_", "") + " 項"
  }

  /** Field ids of a catalog section are `key-idx`. */
  function CatalogFieldId(key: string, idx: nat): string
  {
    key + "-" + NatToString(idx)
  }

  function CatalogField(key: string, idx: nat, q: Question): FormField
  {
    FormField(CatalogFieldId(key, idx), QuestionLabel(q), Checkbox, false, None, None)
  }

  function CatalogSection(e: CatalogEntry): (s: FormSection)
    ensures s.id == e.key && s.title == SectionTitle(e.key) && |s.fields| == |e.items|
    ensures forall i :: 0 <= i < |e.items| ==> s.fields[i] == CatalogField(e.key, i, e.items[i])
  {
    FormSection(e.key, SectionTitle(e.key),
      seq(|e.items|, i requires 0 <= i < |e.items| => CatalogField(e.key, i, e.items[i])))
  }

  /** The builder's initial sections: one per catalog key, in order, each
      holding one required-false checkbox field per question. */
  function MapFormJsonToSections(entries: seq<CatalogEntry>): (sections: seq<FormSection>)
    ensures |sections| == |entries|
    ensures forall k :: 0 <= k < |entries| ==>
              && sections[k].id == entries[k].key && sections[k].title == SectionTitle(entries[k].key)
              && |sections[k].fields| == |entries[k].items|
    ensures forall k, i :: 0 <= k < |entries| && 0 <= i < |entries[k].items| ==>
              var f := sections[k].fields[i];
              f.id == entries[k].key + "-" + NatToString(i) && f.caption == QuestionLabel(entries[k].items[i])
              && f.fieldType == Checkbox && !f.required && f.options.None? && f.placeholder.None?
  {
    seq(|entries|, k requires 0 <= k < |entries| => CatalogSection(entries[k]))
  }

  /** Within one catalog section no two fields share an id. */
  lemma MappedFieldIdsDistinct(entries: seq<CatalogEntry>, k: nat, i: nat, j: nat)
    requires k < |entries| && i < |entries[k].items| && j < |entries[k].items|
    ensures MapFormJsonToSections(entries)[k].fields[i].id == MapFormJsonToSections(entries)[k].fields[j].id ==> i == j
  {
    if CatalogFieldId(entries[k].key, i) == CatalogFieldId(entries[k].key, j) {
      CatalogFieldIdInjective(entries[k].key, i, j);
    }
  }

  /** `key-i` determines `i`. */
  lemma CatalogFieldIdInjective(key: string, i: nat, j: nat)
    requires CatalogFieldId(key, i) == CatalogFieldId(key, j)
    ensures i == j
  {
    var a := CatalogFieldId(key, i);
    var b := CatalogFieldId(key, j);
    assert a[|key| + 1..] == NatToString(i);
    assert b[|key| + 1..] == NatToString(j);
    NatToStringInjective(i, j);
  }

  // ---------------------------------------------------------------------
  // Addressing one section / one field

  /** `sections.map(s => s.id === sectionId ? f(s) : s)` */
  function MapSection(sections: seq<FormSection>, sectionId: string, f: FormSection -> FormSection): (r: seq<FormSection>)
    ensures |r| == |sections|
    ensures forall i :: 0 <= i < |r| ==> r[i] == if sections[i].id == sectionId then f(sections[i]) else sections[i]
  {
    seq(|sections|, i requires 0 <= i < |sections| =>
      if sections[i].id == sectionId then f(sections[i]) else sections[i])
  }

  /** `fields.map(f => f.id === fieldId ? g(f) : f)` */
  function MapField(fields: seq<FormField>, fieldId: string, g: FormField -> FormField): (r: seq<FormField>)
    ensures |r| == |fields|
    ensures forall j :: 0 <= j < |r| ==> r[j] == if fields[j].id == fieldId then g(fields[j]) else fields[j]
  {
    seq(|fields|, j requires 0 <= j < |fields| =>
      if fields[j].id == fieldId then g(fields[j]) else fields[j])
  }

  /** Apply `g` to the fields with id `fieldId` inside the sections with id
      `sectionId`; sections keep their ids, titles and field counts. */
  function MapFieldIn(sections: seq<FormSection>, sectionId: string, fieldId: string, g: FormField -> FormField)
    : (r: seq<FormSection>)
    ensures |r| == |sections|
    ensures forall i :: 0 <= i < |r| ==>
              r[i].id == sections[i].id && r[i].title == sections[i].title
              && |r[i].fields| == |sections[i].fields|
    ensures forall i :: 0 <= i < |r| && sections[i].id != sectionId ==> r[i] == sections[i]
    ensures forall i, j :: 0 <= i < |r| && 0 <= j < |r[i].fields| ==>
              r[i].fields[j] == if sections[i].id == sectionId && sections[i].fields[j].id == fieldId
                                then g(sections[i].fields[j]) else sections[i].fields[j]
  {
    MapSection(sections, sectionId, (s: FormSection) => s.(fields := MapField(s.fields, fieldId, g)))
  }

  /** `findIndex(f => f.id === fieldId)`: the first matching position, or -1. */
  function FieldIndex(fields: seq<FormField>, fieldId: string): (k: int)
    ensures -1 <= k < |fields|
    ensures k == -1 <==> !HasField(fields, fieldId)
    ensures k >= 0 ==> fields[k].id == fieldId && forall j :: 0 <= j < k ==> fields[j].id != fieldId
  {
    if |fields| == 0 then -1
    else if fields[0].id == fieldId then 0
    else
      var k := FieldIndex(fields[1..], fieldId);
      assert HasField(fields[1..], fieldId) ==> HasField(fields, fieldId) by {
        if HasField(fields[1..], fieldId) {
          var j :| 0 <= j < |fields[1..]| && fields[1..][j].id == fieldId;
          assert fields[j + 1].id == fieldId;
        }
      }
      assert HasField(fields, fieldId) ==> HasField(fields[1..], fieldId) by {
        if HasField(fields, fieldId) {
          var j :| 0 <= j < |fields| && fields[j].id == fieldId;
          assert fields[1..][j - 1].id == fieldId;
        }
      }
      if k == -1 then -1 else k + 1
  }

  // ---------------------------------------------------------------------
  // Section operations

  /** A new empty section at the end, titled "區段 n+1"; its id derives from
      the clock reading `now` (milliseconds). */
  function AddSection(sections: seq<FormSection>, now: nat): (r: seq<FormSection>)
    ensures |r| == |sections| + 1 && r[..|sections|] == sections
    ensures r[|sections|].id == "section_" + NatToString(now)
    ensures r[|sections|].title == "區段 " + NatToString(|sections| + 1)
    ensures r[|sections|].fields == []
  {
    sections + [FormSection("section_" + NatToString(now), "區段 " + NatToString(|sections| + 1), [])]
  }

  /** Retitles the sections with the given id; ids and fields never change. */
  function UpdateSectionTitle(sections: seq<FormSection>, sectionId: string, newTitle: string): (r: seq<FormSection>)
    ensures |r| == |sections|
    ensures forall i :: 0 <= i < |r| ==> r[i].id == sections[i].id && r[i].fields == sections[i].fields
    ensures forall i :: 0 <= i < |r| ==> r[i].title == if sections[i].id == sectionId then newTitle else sections[i].title
  {
    MapSection(sections, sectionId, (s: FormSection) => s.(title := newTitle))
  }

  /** Retitling twice is retitling once with the later title. */
  lemma LastTitleWins(sections: seq<FormSection>, sectionId: string, t1: string, t2: string)
    ensures UpdateSectionTitle(UpdateSectionTitle(sections, sectionId, t1), sectionId, t2)
         == UpdateSectionTitle(sections, sectionId, t2)
  {
  }

  datatype BuilderError = AtLeastOneSection

  /** The predicate the section filter keeps: every section not carrying `sectionId`. */
  function OtherSection(sectionId: string): FormSection -> bool
  {
    (s: FormSection) => s.id != sectionId
  }

  /** Refuses to remove the only section; otherwise drops every section with
      the id and keeps the others in order. */
  function RemoveSection(sections: seq<FormSection>, sectionId: string): (r: Result<seq<FormSection>, BuilderError>)
    ensures r.Err? <==> |sections| == 1
    ensures r.Err? ==> r.error == AtLeastOneSection
    ensures r.Ok? ==> (forall s :: s in r.value ==> s in sections && s.id != sectionId)
                      && (forall s :: s in sections && s.id != sectionId ==> s in r.value)
                      && Seqs.IsSubsequence(r.value, sections)
                      && (forall s: FormSection :: s.id != sectionId ==> multiset(r.value)[s] == multiset(sections)[s])
  {
    if |sections| == 1 then Err(AtLeastOneSection)
    else
      Seqs.FilterIsSubsequence(sections, OtherSection(sectionId));
      Seqs.FilterMembers(sections, OtherSection(sectionId));
      Seqs.FilterKeepsMultiplicities(sections, OtherSection(sectionId));
      Ok(Seqs.Filter(sections, OtherSection(sectionId)))
  }

  /** With distinct section ids, removing a section never leaves a builder
      that had sections without any. */
  lemma RemoveSectionKeepsOne(sections: seq<FormSection>, sectionId: string)
    requires |sections| >= 1 && DistinctSectionIds(sections)
    ensures RemoveSection(sections, sectionId).Ok? ==> |RemoveSection(sections, sectionId).value| >= 1
  {
    if |sections| != 1 {
      Seqs.FilterDropsAtMostOne(sections, OtherSection(sectionId));
    }
  }

  /** Adding a section and removing it again by its new id restores the
      builder, provided the new id was not in use. */
  lemma AddThenRemoveSection(sections: seq<FormSection>, now: nat)
    requires |sections| >= 1
    requires forall i :: 0 <= i < |sections| ==> sections[i].id != "section_" + NatToString(now)
    ensures RemoveSection(AddSection(sections, now), "section_" + NatToString(now)) == Ok(sections)
  {
    var added := AddSection(sections, now);
    var p := OtherSection("section_" + NatToString(now));
    var created := added[|sections|];
    assert added == sections + [created];
    Seqs.FilterConcat(sections, [created], p);
    Seqs.FilterKeepsAll(sections, p);
    assert !p(created) && [created][1..] == [];
    assert Seqs.Filter([created], p) == [];
    assert sections + [] == sections;
  }

  // ---------------------------------------------------------------------
  // Field operations

  /** The field `addField` appends to a section that holds `n` fields. */
  function NewField(freshId: string, n: nat): FormField
  {
    FormField(freshId, "欄位 " + NatToString(n + 1), TextInput, false, None, None)
  }

  /** Appends one optional text field labelled "欄位 n+1" to the addressed
      sections; every other section is unchanged. */
  function AddField(sections: seq<FormSection>, sectionId: string, freshId: string): (r: seq<FormSection>)
    ensures |r| == |sections|
    ensures forall i :: 0 <= i < |r| && sections[i].id != sectionId ==> r[i] == sections[i]
    ensures forall i :: 0 <= i < |r| && sections[i].id == sectionId ==>
              var n := |sections[i].fields|;
              && r[i].id == sections[i].id && r[i].title == sections[i].title
              && |r[i].fields| == n + 1 && r[i].fields[..n] == sections[i].fields
              && r[i].fields[n].id == freshId && r[i].fields[n].fieldType == TextInput
              && !r[i].fields[n].required && r[i].fields[n].caption == "欄位 " + NatToString(n + 1)
              && r[i].fields[n].options.None? && r[i].fields[n].placeholder.None?
  {
    MapSection(sections, sectionId, (s: FormSection) => s.(fields := s.fields + [NewField(freshId, |s.fields|)]))
  }

  /** The predicate the field filter keeps: every field not carrying `fieldId`. */
  function OtherField(fieldId: string): FormField -> bool
  {
    (f: FormField) => f.id != fieldId
  }

  /** `fields.filter(f => f.id !== fieldId)`: exactly the fields with the id
      are gone, every other field stays, in the same order. */
  function RemoveWithin(fields: seq<FormField>, fieldId: string): (r: seq<FormField>)
    ensures !HasField(r, fieldId)
    ensures forall f :: f in fields && f.id != fieldId ==> f in r
    ensures forall f :: f in r ==> f in fields
    ensures Seqs.IsSubsequence(r, fields)
    ensures forall f: FormField :: f.id != fieldId ==> multiset(r)[f] == multiset(fields)[f]
    ensures !HasField(fields, fieldId) ==> r == fields
  {
    FilterOtherField(fields, fieldId);
    Seqs.FilterMembers(fields, OtherField(fieldId));
    Seqs.FilterKeepsMultiplicities(fields, OtherField(fieldId));
    Seqs.Filter(fields, OtherField(fieldId))
  }

  lemma FilterOtherField(fields: seq<FormField>, fieldId: string)
    ensures !HasField(Seqs.Filter(fields, OtherField(fieldId)), fieldId)
    ensures Seqs.IsSubsequence(Seqs.Filter(fields, OtherField(fieldId)), fields)
    ensures !HasField(fields, fieldId) ==> Seqs.Filter(fields, OtherField(fieldId)) == fields
  {
    var r := Seqs.Filter(fields, OtherField(fieldId));
    Seqs.FilterIsSubsequence(fields, OtherField(fieldId));
    Seqs.FilterMembers(fields, OtherField(fieldId));
    forall j | 0 <= j < |r|
      ensures r[j].id != fieldId
    {
      assert r[j] in r;
    }
    if !HasField(fields, fieldId) {
      Seqs.FilterKeepsAll(fields, OtherField(fieldId));
    }
  }

  /** Removes the field from the addressed sections; other sections are unchanged. */
  function RemoveField(sections: seq<FormSection>, sectionId: string, fieldId: string): (r: seq<FormSection>)
    ensures |r| == |sections|
    ensures forall i :: 0 <= i < |r| && sections[i].id != sectionId ==> r[i] == sections[i]
    ensures forall i :: 0 <= i < |r| && sections[i].id == sectionId ==>
              r[i].id == sections[i].id && r[i].title == sections[i].title
              && r[i].fields == RemoveWithin(sections[i].fields, fieldId)
  {
    MapSection(sections, sectionId, (s: FormSection) => s.(fields := RemoveWithin(s.fields, fieldId)))
  }

  /** Adding a field and removing it again by its fresh id restores the
      builder, provided the id was not in use in the addressed sections. */
  lemma AddThenRemoveField(sections: seq<FormSection>, sectionId: string, freshId: string)
    requires forall i :: 0 <= i < |sections| && sections[i].id == sectionId ==> !HasField(sections[i].fields, freshId)
    ensures RemoveField(AddField(sections, sectionId, freshId), sectionId, freshId) == sections
  {
    var added := AddField(sections, sectionId, freshId);
    var r := RemoveField(added, sectionId, freshId);
    var p := OtherField(freshId);
    forall i | 0 <= i < |sections|
      ensures r[i] == sections[i]
    {
      if sections[i].id == sectionId {
        var fs := sections[i].fields;
        var nf := NewField(freshId, |fs|);
        assert added[i].fields == fs + [nf];
        Seqs.FilterConcat(fs, [nf], p);
        assert forall j :: 0 <= j < |fs| ==> fs[j].id != freshId;
        Seqs.FilterKeepsAll(fs, p);
        assert !p(nf) && [nf][1..] == [];
        assert Seqs.Filter([nf], p) == [];
        assert fs + [] == fs;
      }
    }
  }

  /** A partial record of new attribute values, as `{ ...field, ...updates }`
      merges it: a property present in `updates` replaces the field's. */
  datatype Patch<T> = Keep | Set(value: T) {
    function Or(current: T): T
    {
      if Set? then value else current
    }
  }

  datatype FieldPatch = FieldPatch(
    id: Patch<string>,
    caption: Patch<string>,
    fieldType: Patch<FieldType>,
    required: Patch<bool>,
    options: Patch<Option<seq<string>>>,
    placeholder: Patch<Option<string>>)

  const NoChange := FieldPatch(Keep, Keep, Keep, Keep, Keep, Keep)

  /** `{ ...field, ...updates }` */
  function ApplyPatch(f: FormField, p: FieldPatch): (g: FormField)
    ensures p == NoChange ==> g == f
    ensures (p.id.Keep? ==> g.id == f.id) && (p.id.Set? ==> g.id == p.id.value)
    ensures (p.caption.Keep? ==> g.caption == f.caption) && (p.caption.Set? ==> g.caption == p.caption.value)
    ensures (p.fieldType.Keep? ==> g.fieldType == f.fieldType) && (p.fieldType.Set? ==> g.fieldType == p.fieldType.value)
    ensures (p.required.Keep? ==> g.required == f.required) && (p.required.Set? ==> g.required == p.required.value)
    ensures (p.options.Keep? ==> g.options == f.options) && (p.options.Set? ==> g.options == p.options.value)
    ensures (p.placeholder.Keep? ==> g.placeholder == f.placeholder)
            && (p.placeholder.Set? ==> g.placeholder == p.placeholder.value)
  {
    FormField(p.id.Or(f.id), p.caption.Or(f.caption), p.fieldType.Or(f.fieldType), p.required.Or(f.required),
              p.options.Or(f.options), p.placeholder.Or(f.placeholder))
  }

  /** Merging the same partial record twice equals merging it once. */
  lemma ApplyPatchIdempotent(f: FormField, p: FieldPatch)
    ensures ApplyPatch(ApplyPatch(f, p), p) == ApplyPatch(f, p)
  {
  }

  /** The update the type selector issues: the new type, and options kept
      (or defaulted to ["選項 1"]) for a choice type, cleared otherwise. An
      empty but present option list counts as present, as `[]` is truthy. */
  function TypeChange(f: FormField, t: FieldType): (p: FieldPatch)
    ensures var g := ApplyPatch(f, p);
            && g.fieldType == t
            && g.id == f.id && g.caption == f.caption && g.required == f.required && g.placeholder == f.placeholder
            && (IsChoice(t) && f.options.Some? ==> g.options == f.options)
            && (IsChoice(t) && f.options.None? ==> g.options == Some(["選項 1"]))
            && (!IsChoice(t) ==> g.options == None)
  {
    FieldPatch(Keep, Keep, Set(t), Keep,
               Set(if IsChoice(t) then (if f.options.Some? then f.options else Some(["選項 1"])) else None),
               Keep)
  }

  /** Merges `patch` into the addressed fields of the addressed sections;
      nothing else changes. */
  function UpdateField(sections: seq<FormSection>, sectionId: string, fieldId: string, patch: FieldPatch)
    : (r: seq<FormSection>)
    ensures |r| == |sections|
    ensures forall k :: 0 <= k < |r| ==>
              r[k].id == sections[k].id && r[k].title == sections[k].title && |r[k].fields| == |sections[k].fields|
    ensures forall i :: 0 <= i < |r| && sections[i].id != sectionId ==> r[i] == sections[i]
    ensures forall i, j :: 0 <= i < |r| && 0 <= j < |r[i].fields| ==>
              r[i].fields[j] == if sections[i].id == sectionId && sections[i].fields[j].id == fieldId
                                then ApplyPatch(sections[i].fields[j], patch) else sections[i].fields[j]
  {
    MapFieldIn(sections, sectionId, fieldId, f => ApplyPatch(f, patch))
  }

  /** Movement directions of the reorder buttons. */
  datatype Direction = Up | Down

  /** `s` with the elements at `i` and `j` exchanged. */
  function Swap<T>(s: seq<T>, i: nat, j: nat): seq<T>
    requires i < |s| && j < |s|
  {
    s[i := s[j]][j := s[i]]
  }

  /** Moves the first field with the id one place up or down by taking it
      out and re-inserting it (two splices). At the top (up) or bottom
      (down) the fields are returned unchanged; otherwise the field trades
      places with its neighbour. */
  function MoveWithin(fields: seq<FormField>, fieldId: string, dir: Direction): (r: seq<FormField>)
    requires HasField(fields, fieldId)
    ensures var k := FieldIndex(fields, fieldId);
            && (dir == Up && k == 0 ==> r == fields)
            && (dir == Down && k == |fields| - 1 ==> r == fields)
            && (dir == Up && k > 0 ==> r == Swap(fields, k - 1, k))
            && (dir == Down && k < |fields| - 1 ==> r == Swap(fields, k, k + 1))
    ensures multiset(r) == multiset(fields)
  {
    MoveAt(fields, FieldIndex(fields, fieldId), dir)
  }

  /** Moves the element at `k` one place in direction `dir`, if there is a
      place to move to. */
  function MoveAt<T>(s: seq<T>, k: nat, dir: Direction): (r: seq<T>)
    requires k < |s|
    ensures dir == Up && k == 0 ==> r == s
    ensures dir == Down && k == |s| - 1 ==> r == s
    ensures dir == Up && k > 0 ==> r == Swap(s, k - 1, k)
    ensures dir == Down && k < |s| - 1 ==> r == Swap(s, k, k + 1)
    ensures multiset(r) == multiset(s)
  {
    if dir == Up then
      if k == 0 then s
      else
        SwapIsPermutation(s, k - 1, k);
        Reinsert(s, k, k - 1)
    else if k == |s| - 1 then s
    else
      SwapIsPermutation(s, k, k + 1);
      Reinsert(s, k, k + 1)
  }

  /** `const [x] = s.splice(from, 1); s.splice(to, 0, x)`: take the element
      at `from` out and put it back at `to`. For neighbouring positions this
      exchanges the two elements. */
  function Reinsert<T>(s: seq<T>, from: nat, to: nat): (r: seq<T>)
    requires from < |s| && to < |s|
    ensures to + 1 == from ==> r == Swap(s, to, from)
    ensures from + 1 == to ==> r == Swap(s, from, to)
    ensures |r| == |s|
  {
    var rest := s[..from] + s[from + 1..];
    var r := rest[..to] + [s[from]] + rest[to..];
    assert to + 1 == from ==> r == Swap(s, to, from) by {
      if to + 1 == from {
        assert rest[..to] == s[..to];
        assert rest[to..] == [s[to]] + s[from + 1..];
      }
    }
    assert from + 1 == to ==> r == Swap(s, from, to) by {
      if from + 1 == to {
        assert rest[..to] == s[..from] + [s[to]];
        assert rest[to..] == s[to + 1..];
      }
    }
    r
  }

  lemma SwapTwice<T>(s: seq<T>, i: nat, j: nat)
    requires i < |s| && j < |s|
    ensures Swap(Swap(s, i, j), i, j) == s
  {
    var t := Swap(Swap(s, i, j), i, j);
    assert |t| == |s|;
    forall n | 0 <= n < |s|
      ensures t[n] == s[n]
    {
    }
  }

  lemma SwapIsPermutation<T>(s: seq<T>, i: nat, j: nat)
    requires i < j < |s|
    ensures multiset(Swap(s, i, j)) == multiset(s)
  {
    var once := s[i := s[j]];
    assert multiset(once) == multiset(s) - multiset{s[i]} + multiset{s[j]};
    assert once[j] == s[j];
    assert multiset(once[j := s[i]]) == multiset(once) - multiset{s[j]} + multiset{s[i]};
  }

  /** Reorders the addressed field within every addressed section. The id
      must name a field of each addressed section, as it does when the
      arrow buttons of a rendered field call it. */
  function MoveField(sections: seq<FormSection>, sectionId: string, fieldId: string, dir: Direction)
    : (r: seq<FormSection>)
    requires forall i :: 0 <= i < |sections| && sections[i].id == sectionId ==> HasField(sections[i].fields, fieldId)
    ensures |r| == |sections|
    ensures forall i :: 0 <= i < |r| && sections[i].id != sectionId ==> r[i] == sections[i]
    ensures forall i :: 0 <= i < |r| && sections[i].id == sectionId ==>
              r[i].id == sections[i].id && r[i].title == sections[i].title
              && multiset(r[i].fields) == multiset(sections[i].fields)
              && r[i].fields == MoveWithin(sections[i].fields, fieldId, dir)
  {
    seq(|sections|, i requires 0 <= i < |sections| =>
      if sections[i].id == sectionId
      then sections[i].(fields := MoveWithin(sections[i].fields, fieldId, dir))
      else sections[i])
  }

  /** `FieldIndex` is pinned down by its contract: the first matching position. */
  lemma FieldIndexIs(fields: seq<FormField>, fieldId: string, m: nat)
    requires m < |fields| && fields[m].id == fieldId
    requires forall j :: 0 <= j < m ==> fields[j].id != fieldId
    ensures FieldIndex(fields, fieldId) == m
  {
    var k := FieldIndex(fields, fieldId);
    assert HasField(fields, fieldId);
  }

  /** Moving a field up and then down again restores the order. */
  lemma MoveUpThenDown(fields: seq<FormField>, fieldId: string)
    requires HasField(fields, fieldId) && FieldIndex(fields, fieldId) > 0
    ensures HasField(MoveWithin(fields, fieldId, Up), fieldId)
    ensures MoveWithin(MoveWithin(fields, fieldId, Up), fieldId, Down) == fields
  {
    var k := FieldIndex(fields, fieldId);
    var up := MoveAt(fields, k, Up);
    assert up[k - 1] == fields[k];
    forall j | 0 <= j < k - 1
      ensures up[j].id != fieldId
    {
      assert up[j] == fields[j];
    }
    FieldIndexIs(up, fieldId, k - 1);
    MoveAtUpThenDown(fields, k);
  }

  lemma MoveAtUpThenDown<T>(s: seq<T>, k: nat)
    requires 0 < k < |s|
    ensures MoveAt(MoveAt(s, k, Up), k - 1, Down) == s
  {
    SwapTwice(s, k - 1, k);
  }

  /** The copy `duplicateField` inserts: a fresh id, " (複製)" appended to
      the caption, every other attribute equal. */
  function Copy(f: FormField, freshId: string): FormField
  {
    f.(id := freshId, caption := f.caption + " (複製)")
  }

  /** Inserts a copy of the first field with the id right after it; without
      such a field the fields are returned unchanged. */
  function DuplicateWithin(fields: seq<FormField>, fieldId: string, freshId: string): (r: seq<FormField>)
    ensures !HasField(fields, fieldId) ==> r == fields
    ensures HasField(fields, fieldId) ==> |r| == |fields| + 1
    ensures HasField(fields, fieldId) ==>
              var k := FieldIndex(fields, fieldId);
              var c := r[k + 1];
              && |r| == |fields| + 1
              && r[..k + 1] == fields[..k + 1] && r[k + 2..] == fields[k + 1..]
              && c.id == freshId && c.caption == fields[k].caption + " (複製)"
              && c.fieldType == fields[k].fieldType && c.required == fields[k].required
              && c.options == fields[k].options && c.placeholder == fields[k].placeholder
  {
    var k := FieldIndex(fields, fieldId);
    if k == -1 then fields
    else
      var r := fields[..k + 1] + [Copy(fields[k], freshId)] + fields[k + 1..];
      assert r[..k + 1] == fields[..k + 1];
      assert r[k + 2..] == fields[k + 1..];
      r
  }

  function DuplicateField(sections: seq<FormSection>, sectionId: string, fieldId: string, freshId: string)
    : (r: seq<FormSection>)
    ensures |r| == |sections|
    ensures forall i :: 0 <= i < |r| && sections[i].id != sectionId ==> r[i] == sections[i]
    ensures forall i :: 0 <= i < |r| && sections[i].id == sectionId ==>
              r[i].id == sections[i].id && r[i].title == sections[i].title
              && r[i].fields == DuplicateWithin(sections[i].fields, fieldId, freshId)
              && |r[i].fields| == |sections[i].fields| + (if HasField(sections[i].fields, fieldId) then 1 else 0)
  {
    MapSection(sections, sectionId, (s: FormSection) => s.(fields := DuplicateWithin(s.fields, fieldId, freshId)))
  }

  /** Deleting the copy right after duplicating restores the fields,
      provided its id was fresh. */
  lemma DuplicateThenRemove(fields: seq<FormField>, fieldId: string, freshId: string)
    requires !HasField(fields, freshId)
    ensures RemoveWithin(DuplicateWithin(fields, fieldId, freshId), freshId) == fields
  {
    if HasField(fields, fieldId) {
      var k := FieldIndex(fields, fieldId);
      DuplicateWithinShape(fields, fieldId, freshId);
      RemoveInserted(fields, k + 1, Copy(fields[k], freshId));
    }
  }

  lemma DuplicateWithinShape(fields: seq<FormField>, fieldId: string, freshId: string)
    requires HasField(fields, fieldId)
    ensures var k := FieldIndex(fields, fieldId);
            DuplicateWithin(fields, fieldId, freshId) == fields[..k + 1] + [Copy(fields[k], freshId)] + fields[k + 1..]
  {
  }

  /** Removing a field inserted under an id no other field carries closes
      the gap it opened. */
  lemma RemoveInserted(fields: seq<FormField>, at: nat, c: FormField)
    requires at <= |fields| && !HasField(fields, c.id)
    ensures RemoveWithin(fields[..at] + [c] + fields[at..], c.id) == fields
  {
    var p := OtherField(c.id);
    var a, b := fields[..at], fields[at..];
    forall i | 0 <= i < |a|
      ensures p(a[i])
    {
      assert a[i] == fields[i];
    }
    forall i | 0 <= i < |b|
      ensures p(b[i])
    {
      assert b[i] == fields[at + i];
    }
    Seqs.FilterSkipsOne(a, c, b, p);
    assert a + b == fields;
  }

  // ---------------------------------------------------------------------
  // Option operations

  /** Appends "選項 k+1" to the field's options (k = their number, an absent
      list counting as empty). */
  function AppendOption(f: FormField): (g: FormField)
    ensures g.options.Some?
    ensures var prev := f.options.GetOr([]);
            g.options.value == prev + ["選項 " + NatToString(|prev| + 1)]
    ensures g == f.(options := g.options)
  {
    var opts := f.options.GetOr([]);
    f.(options := Some(opts + ["選項 " + NatToString(|opts| + 1)]))
  }

  /** `newOptions[i] = value` on a copy of the options: option `i` is
      replaced, and an index one past the end appends. Fields without
      options are untouched. */
  function SetOption(f: FormField, i: nat, value: string): (g: FormField)
    ensures f.options.None? ==> g == f
    ensures f.options.Some? ==>
              var prev := f.options.value;
              && g == f.(options := g.options) && g.options.Some?
              && (i < |prev| ==> |g.options.value| == |prev| && g.options.value[i] == value
                                 && forall j :: 0 <= j < |prev| && j != i ==> g.options.value[j] == prev[j])
              && (i == |prev| ==> g.options.value == prev + [value])
              && (i > |prev| ==> g.options.value == prev)
  {
    match f.options
    case None => f
    case Some(opts) =>
      f.(options := Some(if i < |opts| then opts[i := value] else if i == |opts| then opts + [value] else opts))
  }

  /** Writing an option back with the text it already has changes nothing,
      and a second write of the same text changes nothing further. */
  lemma SetOptionIdempotent(f: FormField, i: nat, value: string)
    ensures f.options.Some? && i < |f.options.value| ==> SetOption(f, i, f.options.value[i]) == f
    ensures f.options.Some? && i < |f.options.value| ==> SetOption(SetOption(f, i, value), i, value) == SetOption(f, i, value)
  {
    if f.options.Some? && i < |f.options.value| {
      var opts := f.options.value;
      assert opts[i := opts[i]] == opts;
      assert opts[i := value][i := value] == opts[i := value];
    }
  }

  /** `splice(i, 1)` on the option list: removes option `i` and closes the
      gap; an index past the end removes nothing. Fields without options
      are untouched. */
  function DropOption(f: FormField, i: nat): (g: FormField)
    ensures f.options.None? ==> g == f
    ensures f.options.Some? ==>
              var prev := f.options.value;
              && g == f.(options := g.options) && g.options.Some?
              && (i < |prev| ==>
                    |g.options.value| == |prev| - 1 && g.options.value[..i] == prev[..i]
                    && g.options.value[i..] == prev[i + 1..])
              && (i >= |prev| ==> g.options.value == prev)
  {
    match f.options
    case None => f
    case Some(opts) => f.(options := Some(if i < |opts| then opts[..i] + opts[i + 1..] else opts))
  }

  /** Removing the option just added restores the list (an absent list
      becomes an empty one). */
  lemma AppendThenDropOption(f: FormField)
    ensures DropOption(AppendOption(f), |f.options.GetOr([])|) == f.(options := Some(f.options.GetOr([])))
  {
    var prev := f.options.GetOr([]);
    var grown := prev + ["選項 " + NatToString(|prev| + 1)];
    assert AppendOption(f).options == Some(grown);
    assert grown[..|prev|] + grown[|prev| + 1..] == prev;
  }

  function AddOption(sections: seq<FormSection>, sectionId: string, fieldId: string): (r: seq<FormSection>)
    ensures |r| == |sections|
    ensures forall k :: 0 <= k < |r| ==>
              r[k].id == sections[k].id && r[k].title == sections[k].title && |r[k].fields| == |sections[k].fields|
    ensures forall i :: 0 <= i < |r| && sections[i].id != sectionId ==> r[i] == sections[i]
    ensures forall i, j :: 0 <= i < |r| && 0 <= j < |r[i].fields| ==>
              r[i].fields[j] == if sections[i].id == sectionId && sections[i].fields[j].id == fieldId
                                then AppendOption(sections[i].fields[j]) else sections[i].fields[j]
  {
    MapFieldIn(sections, sectionId, fieldId, AppendOption)
  }

  function UpdateOption(sections: seq<FormSection>, sectionId: string, fieldId: string, i: nat, value: string)
    : (r: seq<FormSection>)
    ensures |r| == |sections|
    ensures forall k :: 0 <= k < |r| ==>
              r[k].id == sections[k].id && r[k].title == sections[k].title && |r[k].fields| == |sections[k].fields|
    ensures forall k :: 0 <= k < |r| && sections[k].id != sectionId ==> r[k] == sections[k]
    ensures forall k, j :: 0 <= k < |r| && 0 <= j < |r[k].fields| ==>
              r[k].fields[j] == if sections[k].id == sectionId && sections[k].fields[j].id == fieldId
                                then SetOption(sections[k].fields[j], i, value) else sections[k].fields[j]
  {
    MapFieldIn(sections, sectionId, fieldId, f => SetOption(f, i, value))
  }

  function RemoveOption(sections: seq<FormSection>, sectionId: string, fieldId: string, i: nat)
    : (r: seq<FormSection>)
    ensures |r| == |sections|
    ensures forall k :: 0 <= k < |r| ==>
              r[k].id == sections[k].id && r[k].title == sections[k].title && |r[k].fields| == |sections[k].fields|
    ensures forall k :: 0 <= k < |r| && sections[k].id != sectionId ==> r[k] == sections[k]
    ensures forall k, j :: 0 <= k < |r| && 0 <= j < |r[k].fields| ==>
              r[k].fields[j] == if sections[k].id == sectionId && sections[k].fields[j].id == fieldId
                                then DropOption(sections[k].fields[j], i) else sections[k].fields[j]
  {
    MapFieldIn(sections, sectionId, fieldId, f => DropOption(f, i))
  }

  // ---------------------------------------------------------------------
  // Saving

  /** A field can be saved: its caption is not blank, and a choice field has
      at least one option. */
  predicate FieldIsComplete(f: FormField)
  {
    && !IsBlank(f.caption)
    && (IsChoice(f.fieldType) ==> f.options.Some? && |f.options.value| > 0)
  }

  predicate FieldsComplete(fields: seq<FormField>)
  {
    forall j :: 0 <= j < |fields| ==> FieldIsComplete(fields[j])
  }

  /** The condition under which a template saves. */
  predicate TemplateIsValid(name: string, sections: seq<FormSection>)
  {
    && !IsBlank(name)
    && (forall i :: 0 <= i < |sections| ==> |sections[i].fields| > 0)
    && (forall i :: 0 <= i < |sections| ==> FieldsComplete(sections[i].fields))
  }

  /** One toast of the per-field pass. */
  datatype FieldProblem = BlankLabel | MissingOptions(caption: string)

  datatype SaveError =
    | NameRequired
    | SectionWithoutFields(title: string)
    | InvalidFields(problems: seq<FieldProblem>)

  /** What would be sent to the server (its random id and timestamp aside). */
  datatype Template = Template(name: string, description: string, sections: seq<FormSection>)

  /** The problems one field reports, one per error message: a blank
      caption first, then missing options (naming the caption). */
  function FieldProblems(f: FormField): (ps: seq<FieldProblem>)
    ensures ps == [] <==> FieldIsComplete(f)
    ensures BlankLabel in ps <==> IsBlank(f.caption)
    ensures MissingOptions(f.caption) in ps <==> IsChoice(f.fieldType) && (f.options.None? || |f.options.value| == 0)
    ensures forall p :: p in ps ==> p == BlankLabel || p == MissingOptions(f.caption)
    ensures |ps| <= 2 && (|ps| == 2 ==> ps == [BlankLabel, MissingOptions(f.caption)])
  {
    var blank := Trim(f.caption) == "";
    var missing := IsChoice(f.fieldType) && (f.options.None? || |f.options.value| == 0);
    if blank && missing then [BlankLabel, MissingOptions(f.caption)]
    else if blank then [BlankLabel]
    else if missing then [MissingOptions(f.caption)]
    else []
  }

  function FieldsProblems(fields: seq<FormField>): (ps: seq<FieldProblem>)
    ensures ps == [] <==> FieldsComplete(fields)
  {
    if |fields| == 0 then []
    else
      var rest := FieldsProblems(fields[1..]);
      AllCompleteSplit(fields);
      FieldProblems(fields[0]) + rest
  }

  lemma AllCompleteSplit(fields: seq<FormField>)
    requires |fields| > 0
    ensures FieldsComplete(fields) <==> FieldIsComplete(fields[0]) && FieldsComplete(fields[1..])
  {
    if FieldIsComplete(fields[0]) && FieldsComplete(fields[1..]) {
      forall j | 0 <= j < |fields|
        ensures FieldIsComplete(fields[j])
      {
        if j > 0 {
          assert fields[j] == fields[1..][j - 1];
        }
      }
    }
  }

  /** Every field of every section, in order: the nested `forEach` pass. */
  function SectionsProblems(sections: seq<FormSection>): (ps: seq<FieldProblem>)
    ensures ps == [] <==> forall i :: 0 <= i < |sections| ==> FieldsComplete(sections[i].fields)
  {
    if |sections| == 0 then []
    else
      var rest := SectionsProblems(sections[1..]);
      assert forall i :: 1 <= i < |sections| ==> sections[i] == sections[1..][i - 1];
      FieldsProblems(sections[0].fields) + rest
  }

  /** The position of the first section without fields, or -1. */
  function FirstEmptySection(sections: seq<FormSection>): (k: int)
    ensures -1 <= k < |sections|
    ensures k == -1 <==> forall i :: 0 <= i < |sections| ==> |sections[i].fields| > 0
    ensures k >= 0 ==> |sections[k].fields| == 0 && forall i :: 0 <= i < k ==> |sections[i].fields| > 0
  {
    if |sections| == 0 then -1
    else if |sections[0].fields| == 0 then 0
    else
      var k := FirstEmptySection(sections[1..]);
      assert forall i :: 1 <= i < |sections| ==> sections[i] == sections[1..][i - 1];
      if k == -1 then -1 else k + 1
  }

  /** Validity read as the save check's three stages. */
  lemma ValidityByStages(name: string, sections: seq<FormSection>)
    ensures TemplateIsValid(name, sections)
        <==> Trim(name) != "" && FirstEmptySection(sections) < 0 && SectionsProblems(sections) == []
  {
  }

  /** The save check: the name, then empty sections (reporting the first),
      then every field; the template is produced only when all pass. */
  function ValidateTemplate(name: string, description: string, sections: seq<FormSection>)
    : (r: Result<Template, SaveError>)
    ensures r.Ok? <==> TemplateIsValid(name, sections)
    ensures r.Ok? ==> r.value == Template(name, description, sections)
    ensures IsBlank(name) ==> r == Err(NameRequired)
    ensures !IsBlank(name) && FirstEmptySection(sections) >= 0 ==>
              r == Err(SectionWithoutFields(sections[FirstEmptySection(sections)].title))
    ensures !IsBlank(name) && FirstEmptySection(sections) < 0 && !TemplateIsValid(name, sections) ==>
              r == Err(InvalidFields(SectionsProblems(sections)))
    ensures r.Err? && r.error.InvalidFields? ==> |r.error.problems| > 0
  {
    ValidityByStages(name, sections);
    if Trim(name) == "" then Err(NameRequired)
    else
      var k := FirstEmptySection(sections);
      if k >= 0 then Err(SectionWithoutFields(sections[k].title))
      else
        var problems := SectionsProblems(sections);
        if |problems| > 0 then Err(InvalidFields(problems))
        else Ok(Template(name, description, sections))
  }

  /** The sections built from a non-empty catalog cannot be saved as they
      are: their checkbox fields have no options yet. */
  lemma CatalogSectionsNeedOptions(entries: seq<CatalogEntry>, name: string, description: string, k: nat)
    requires k < |entries| && |entries[k].items| > 0
    ensures ValidateTemplate(name, description, MapFormJsonToSections(entries)).Err?
  {
    var sections := MapFormJsonToSections(entries);
    assert !FieldIsComplete(sections[k].fields[0]);
    assert !FieldsComplete(sections[k].fields);
    assert !TemplateIsValid(name, sections);
  }
}
