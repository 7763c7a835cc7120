/** Which assessment forms a user may fill: the bundled catalog of form
    definitions, filtered by the user's role OR job title. */
module FormPermissions {
  import Seqs

  datatype FormDefinition = FormDefinition(
    id: string,
    name: string,
    description: string,
    allowedRoles: seq<string>,
    allowedJobTitles: seq<string>)

  const BasicAbilityChecklist := FormDefinition(
    "basic-ability-checklist",
    "基本能力檢核表",
    "評估案主在日常生活與社交能力的基本檢核",
    ["admin"],
    ["社工"])

  const DailyLifeFunctionB := FormDefinition(
    "daily-life-function-b",
    "日常生活功能支持型態評量 – B 版",
    "評估案主日常生活功能與所需支持型態",
    ["admin"],
    ["教保員"])

  /** The catalog, in display order. */
  const FormDefinitions: seq<FormDefinition> := [BasicAbilityChecklist, DailyLifeFunctionB]

  /** A user may fill a form when the role is allowed or the job title is
      allowed: one suffices. */
  predicate MayFill(form: FormDefinition, role: string, jobTitle: string)
  {
    role in form.allowedRoles || jobTitle in form.allowedJobTitles
  }

  function Permits(role: string, jobTitle: string): FormDefinition -> bool
  {
    (form: FormDefinition) => MayFill(form, role, jobTitle)
  }

  /** The forms offered to a user: the catalog entries the user may fill,
      in catalog order. */
  function UseFormPermissions(role: string, jobTitle: string): (forms: seq<FormDefinition>)
    ensures forall f :: f in forms ==> f in FormDefinitions && MayFill(f, role, jobTitle)
    ensures forall f :: f in FormDefinitions && MayFill(f, role, jobTitle) ==> f in forms
    ensures Seqs.IsSubsequence(forms, FormDefinitions)
    ensures |forms| <= |FormDefinitions|
  {
    Seqs.FilterIsSubsequence(FormDefinitions, Permits(role, jobTitle));
    Seqs.FilterMembers(FormDefinitions, Permits(role, jobTitle));
    Seqs.Filter(FormDefinitions, Permits(role, jobTitle))
  }

  /** Over the two-entry catalog the filter is one of four lists: each entry
      present exactly when the user may fill it, in catalog order. */
  lemma {:induction false} PermissionsShape(role: string, jobTitle: string)
    ensures UseFormPermissions(role, jobTitle)
         == (if MayFill(BasicAbilityChecklist, role, jobTitle) then [BasicAbilityChecklist] else [])
          + (if MayFill(DailyLifeFunctionB, role, jobTitle) then [DailyLifeFunctionB] else [])
  {
    var p := Permits(role, jobTitle);
    assert FormDefinitions[1..] == [DailyLifeFunctionB];
    assert [DailyLifeFunctionB][1..] == [];
    var tail := Seqs.Filter([DailyLifeFunctionB], p);
    assert tail == (if p(DailyLifeFunctionB) then [DailyLifeFunctionB] else []);
  }

  /** No form is offered twice. */
  lemma PermittedIdsDistinct(role: string, jobTitle: string)
    ensures var forms := UseFormPermissions(role, jobTitle);
            forall i, j :: 0 <= i < |forms| && 0 <= j < |forms| && forms[i].id == forms[j].id ==> i == j
  {
    PermissionsShape(role, jobTitle);
  }

  /** The admin role is offered the whole catalog, whatever the job title. */
  lemma AdminSeesAllForms(jobTitle: string)
    ensures UseFormPermissions("admin", jobTitle) == FormDefinitions
  {
    PermissionsShape("admin", jobTitle);
  }

  /** A social worker ("社工") who is not an admin gets only the basic
      ability checklist. */
  lemma SocialWorkerSeesChecklist(role: string)
    requires role != "admin"
    ensures UseFormPermissions(role, "社工") == [BasicAbilityChecklist]
  {
    PermissionsShape(role, "社工");
  }

  /** A caregiver ("教保員") who is not an admin gets only version B of the
      daily-life assessment. */
  lemma CaregiverSeesDailyLife(role: string)
    requires role != "admin"
    ensures UseFormPermissions(role, "教保員") == [DailyLifeFunctionB]
  {
    PermissionsShape(role, "教保員");
  }

  /** A role and job title that no entry names yield no forms. */
  lemma NoMatchSeesNothing(role: string, jobTitle: string)
    requires role != "admin" && jobTitle != "社工" && jobTitle != "教保員"
    ensures UseFormPermissions(role, jobTitle) == []
  {
    PermissionsShape(role, jobTitle);
  }
}
