/** `app/domain/policy.py`: the structural reader of AWS-style policy documents. */
module Policy {
  import opened Ordering
  import opened Text

  /** A JSON value in an Action/NotAction/Resource/NotResource position. Scalars
      that are not strings are rendered with `str` first, so they are `One`. */
  datatype Field = Missing | Null | One(text: string) | Many(texts: seq<string>)

  /** The `Principal` entry of a trust statement: `None` items of an AWS list
      are the ones that are not strings. */
  datatype TrustField =
    | NotADict
    | WithoutAws
    | AwsOne(arn: string)
    | AwsMany(arns: seq<Option<string>>)

  datatype Statement = Statement(
    effect: Option<string>,
    action: Field,
    notAction: Field,
    resource: Field,
    notResource: Field,
    hasCondition: bool,
    principal: TrustField)

  /** A policy document by the shape of its `Statement` entry; `None` items of
      a list are the ones that are not dicts. */
  datatype Document =
    | Malformed
    | Single(statement: Statement)
    | Listed(items: seq<Option<Statement>>)

  function Dicts(items: seq<Option<Statement>>): (r: seq<Statement>)
    ensures forall st :: st in r <==> Some(st) in items
  {
    if items == [] then []
    else (if items[0].Some? then [items[0].value] else []) + Dicts(items[1..])
  }

  function Statements(document: Document): seq<Statement> {
    match document
    case Malformed => []
    case Single(st) => [st]
    case Listed(items) => Dicts(items)
  }

  function AsList(field: Field): seq<string> {
    match field
    case Missing => []
    case Null => []
    case One(text) => [text]
    case Many(texts) => texts
  }

  function Actions(st: Statement): seq<string> { AsList(st.action) }

  function NotActions(st: Statement): seq<string> { AsList(st.notAction) }

  /** A NotResource statement without Resource entries reads as unbounded. */
  function Resources(st: Statement): seq<string> {
    var listed := AsList(st.resource);
    if listed != [] then listed
    else if st.notResource != Missing && st.notResource != Null then ["*"]
    else []
  }

  predicate IsAllow(st: Statement) {
    Lower(if st.effect.Some? then st.effect.value else "Allow") == "allow"
  }

  predicate IsAssumeRole(st: Statement) {
    IsAllow(st) && exists i :: 0 <= i < |Actions(st)| && Lower(Actions(st)[i]) in {"sts:assumerole", "*"}
  }

  /** What one statement adds to the granted set; NotAction stands for `*`. */
  function StatementGrants(st: Statement): set<string> {
    if !IsAllow(st) then {}
    else if NotActions(st) != [] then {"*"}
    else set a | a in Actions(st) :: a
  }

  function GrantsOf(sts: seq<Statement>): set<string> {
    set st, a | st in sts && a in StatementGrants(st) :: a
  }

  function Granted(document: Document): set<string> {
    GrantsOf(Statements(document))
  }

  lemma GrantsOfStep(sts: seq<Statement>, i: nat)
    requires i < |sts|
    ensures GrantsOf(sts[..i + 1]) == GrantsOf(sts[..i]) + StatementGrants(sts[i])
  {
  }

  method AddActions(before: set<string>, actions: seq<string>) returns (out: set<string>)
    ensures out == before + set a | a in actions :: a
  {
    out := before;
    for j := 0 to |actions|
      invariant forall a :: a in out <==> a in before || a in actions[..j]
    {
      out := out + {actions[j]};
      assert actions[..j + 1] == actions[..j] + [actions[j]];
    }
    assert actions[..|actions|] == actions;
  }

  /** `granted_actions`: one pass over the statements, adding to `out`. */
  method GrantedActions(document: Document) returns (out: set<string>)
    ensures out == Granted(document)
  {
    out := {};
    var sts := Statements(document);
    for i := 0 to |sts|
      invariant out == GrantsOf(sts[..i])
    {
      GrantsOfStep(sts, i);
      if !IsAllow(sts[i]) {
      } else if NotActions(sts[i]) != [] {
        out := out + {"*"};
      } else {
        out := AddActions(out, Actions(sts[i]));
      }
    }
    assert sts[..|sts|] == sts;
  }

  const SENSITIVE_ACTIONS: set<string> := {
    "*", "iam:*", "iam:CreateUser", "iam:CreateAccessKey", "iam:CreateLoginProfile",
    "iam:UpdateLoginProfile", "iam:AttachUserPolicy", "iam:AttachRolePolicy", "iam:PutUserPolicy",
    "iam:PutRolePolicy", "iam:PassRole", "iam:UpdateAssumeRolePolicy", "sts:AssumeRole",
    "kms:Decrypt", "kms:*", "s3:*", "s3:GetObject", "s3:PutBucketPolicy", "ec2:RunInstances",
    "lambda:CreateFunction", "lambda:UpdateFunctionCode", "secretsmanager:GetSecretValue",
    "cloudtrail:StopLogging", "cloudtrail:DeleteTrail"}

  predicate IsSensitiveIn(action: string, catalog: set<string>) {
    || action == "*"
    || action in catalog
    || (EndsWith(action, ":*")
        && exists s :: s in catalog && (action[..|action| - 1] <= s || s == "*"))
  }

  predicate IsSensitive(action: string) {
    IsSensitiveIn(action, SENSITIVE_ACTIONS)
  }

  function SensitiveAmong(actions: set<string>): set<string> {
    set a | a in actions && IsSensitive(a)
  }

  lemma SensitiveByCatalog(action: string)
    ensures IsSensitive(action) <==> action in SENSITIVE_ACTIONS || EndsWith(action, ":*")
  {
  }

  /** The actions the catalog names. */
  predicate IsNamedSensitive(action: string) {
    || action in {"iam:CreateUser", "iam:CreateAccessKey", "iam:CreateLoginProfile", "iam:UpdateLoginProfile",
                  "iam:AttachUserPolicy", "iam:AttachRolePolicy", "iam:PutUserPolicy", "iam:PutRolePolicy",
                  "iam:PassRole", "iam:UpdateAssumeRolePolicy", "sts:AssumeRole"}
    || action in {"kms:Decrypt", "s3:GetObject", "s3:PutBucketPolicy", "ec2:RunInstances", "lambda:CreateFunction",
                  "lambda:UpdateFunctionCode", "secretsmanager:GetSecretValue", "cloudtrail:StopLogging",
                  "cloudtrail:DeleteTrail"}
  }

  predicate IsCatalogWildcard(action: string) {
    action == "iam:*" || action == "kms:*" || action == "s3:*"
  }

  lemma CatalogExactly(action: string)
    ensures action in SENSITIVE_ACTIONS <==> action == "*" || IsCatalogWildcard(action) || IsNamedSensitive(action)
  {
  }

  lemma CatalogWildcards(action: string)
    requires IsCatalogWildcard(action)
    ensures EndsWith(action, ":*")
  {
    assert |":*"| == 2 && ":*"[0] == ':' && ":*"[1] == '*';
    assert action[|action| - 2..] == [action[|action| - 2], action[|action| - 1]];
  }

  /** The code's catalog holds `*`, so the service test accepts every service
      wildcard, not only those of the services the catalog lists. */
  lemma SensitiveExactly(action: string)
    ensures IsSensitive(action) <==> action == "*" || EndsWith(action, ":*") || IsNamedSensitive(action)
  {
    SensitiveByCatalog(action);
    CatalogExactly(action);
    if IsCatalogWildcard(action) {
      CatalogWildcards(action);
    }
  }

  function Service(target: string): string {
    Before(target, ':')
  }

  /** `grants_action`: does a wildcard-bearing grant set cover `target`? */
  predicate GrantsAction(actions: set<string>, target: string) {
    "*" in actions || target in actions || Service(target) + ":*" in actions
  }

  /** One granted action covers another. */
  predicate Covers(granted: string, target: string) {
    GrantsAction({granted}, target)
  }

  lemma GrantsActionIsSomeCover(actions: set<string>, target: string)
    ensures GrantsAction(actions, target) <==> exists g :: g in actions && Covers(g, target)
  {
  }

  lemma CoverTransitive(g: string, u: string, a: string)
    requires u != "*"
    requires Covers(g, u) && Covers(u, a)
    ensures Covers(g, a)
  {
  }

  lemma BareWildcardBreaksCover()
    ensures Covers("*:*", "*") && Covers("*", "x") && !Covers("*:*", "x")
  {
    assert Service("*") == "*" && "*" + ":*" == "*:*";
    assert Service("x") == "x";
    assert ("x" + ":*")[0] == 'x' && "*:*"[0] == '*';
    assert |"*:*"| == 3 && |"*"| == 1 && |"x"| == 1;
  }

  /** Coverage composes through `u` exactly when `u` is not the bare wildcard:
      `*:*` covers `*`, and `*` covers everything, but `*:*` does not. */
  lemma CoverComposesThrough(u: string)
    ensures (forall g, a :: Covers(g, u) && Covers(u, a) ==> Covers(g, a)) <==> u != "*"
  {
    if u != "*" {
      forall g, a | Covers(g, u) && Covers(u, a) ensures Covers(g, a) {
        CoverTransitive(g, u, a);
      }
    } else {
      BareWildcardBreaksCover();
    }
  }
}
