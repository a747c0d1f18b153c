/** The tenant card: its render guards and the avatar initials. */
module TenantCard {
  import opened Wrappers
  import opened Schema
  import opened Render
  import Initials

  datatype Profile = Profile(fullName: string, email: string, phone: Option<string>, avatarUrl: Option<string>)

  /** The tenant record the card is given; `profile` is null when the join finds no profile. */
  datatype Tenant = Tenant(tenantId: Id, occupation: Option<string>, annualIncome: Option<real>, profile: Option<Profile>)

  /** A nullable string in a `{s && <element/>}` guard: null and "" both render nothing. */
  predicate Truthy(s: Option<string>) {
    s.Some? && s.value != ""
  }

  /** What the card shows. */
  datatype CardView = CardView(
    initials: string, name: string, email: string,
    occupationLine: bool, phoneLine: bool, incomeBadge: Rendered)

  /** As written: the income badge guarded by `annual_income && <badge/>`. */
  function IncomeBadgeAsWritten(income: Option<real>): (r: Rendered)
    ensures r.Element? <==> income.Some? && income.value != 0.0
    ensures r.Literal? <==> income == Some(0.0)
  {
    AndRender(income, true)
  }

  /** A tenant with an annual income of 0 shows a stray "0" instead of no badge. */
  lemma ZeroIncomeShowsZero()
    ensures IncomeBadgeAsWritten(Some(0.0)) == Literal("0")
  {
  }

  /** As intended: the badge for a non-zero income, and nothing otherwise. */
  function IncomeBadgeIntended(income: Option<real>): (r: Rendered)
    ensures r.Element? <==> income.Some? && income.value != 0.0
    ensures r.Element? ==> r.value == income.value
    ensures !r.Literal?
  {
    if income.Some? && income.value != 0.0 then Element(income.value) else Nothing
  }

  /** The two badges differ exactly at an income of 0. */
  lemma IncomeBadgesAgree(income: Option<real>)
    ensures IncomeBadgeAsWritten(income) != IncomeBadgeIntended(income) <==> income == Some(0.0)
  {
  }

  /** The card as written, or nothing at all when the tenant has no profile. */
  function Show(t: Tenant): (r: Option<CardView>)
    ensures r.None? <==> t.profile.None?
    ensures r.Some? ==> r.value.name == t.profile.value.fullName
    ensures r.Some? ==> r.value.initials == Initials.Initials(t.profile.value.fullName)
    ensures r.Some? ==> |r.value.initials| <= 2
    ensures r.Some? ==> (r.value.occupationLine <==> Truthy(t.occupation))
    ensures r.Some? ==> (r.value.phoneLine <==> Truthy(t.profile.value.phone))
    ensures r.Some? ==> r.value.incomeBadge == IncomeBadgeAsWritten(t.annualIncome)
    ensures r.Some? ==> (r.value.incomeBadge.Element? <==> t.annualIncome.Some? && t.annualIncome.value != 0.0)
    ensures r.Some? ==> (r.value.incomeBadge == Literal("0") <==> t.annualIncome == Some(0.0))
  {
    match t.profile
    case None => None
    case Some(p) =>
      Some(CardView(Initials.Initials(p.fullName), p.fullName, p.email,
                Truthy(t.occupation), Truthy(p.phone), IncomeBadgeAsWritten(t.annualIncome)))
  }
}
