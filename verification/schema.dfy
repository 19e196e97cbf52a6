/** The fixed field schema of the results view: three ordered lists of
    (key, label) pairs for page 1, Part VIII (revenue) and Part IX (expenses)
    of IRS Form 990. Keys are unique within each list but not across them:
    `total_revenue` is both a page-1 field and the last Part VIII field. */
module Schema {

  /** One field of the form: the key it is stored under in the extraction
      result and the label (`caption`) shown next to it. */
  datatype Field = Field(key: string, caption: string)

  /** Page 1 summary, in display order. */
  const Page1Fields: seq<Field> := [
    Field("employer_identification_number", "Item D: EIN"),
    Field("gross_receipts", "Item G: Gross Receipts"),
    Field("total_contributions", "Row 8: Total Contributions"),
    Field("total_revenue", "Row 12: Total Revenue"),
    Field("grants_and_similar_amounts_paid", "Row 13: Grants Paid"),
    Field("salaries_compensation_benefits", "Row 15: Salaries & Benefits"),
    Field("professional_fundraising_fees", "Row 16a: Fundraising Fees"),
    Field("total_fundraising_expenses", "Row 16b: Fundraising Expenses"),
    Field("total_assets", "Row 20: Total Assets"),
    Field("total_liabilities", "Row 21: Total Liabilities"),
    Field("net_assets_or_fund_balances", "Row 22: Net Assets")
  ]

  /** Part VIII, statement of revenue, in display order: the form's rows 1
      to 5 (contributions, program service, investment income, royalties),
      rows 6 and 7 (rents and sales of assets) and rows 8 to 12 (events,
      gaming, inventory, other revenue and the total). */
  const PartVIIIFields: seq<Field> := PartVIIIRows1To5 + PartVIIIRows6To7 + PartVIIIRows8To12

  /** Part VIII rows 1a to 5. */
  const PartVIIIRows1To5: seq<Field> := [
    Field("federated_campaigns", "Row 1a: Federated Campaigns"),
    Field("membership_dues", "Row 1b: Membership Dues"),
    Field("fundraising_events", "Row 1c: Fundraising Events"),
    Field("related_organizations", "Row 1d: Related Organizations"),
    Field("government_grants", "Row 1e: Government Grants"),
    Field("all_other_contributions", "Row 1f: Other Contributions"),
    Field("noncash_contributions", "Row 1g: Noncash Contributions"),
    Field("contributions_total", "Row 1h: Contributions Total"),
    Field("program_service_revenue_total", "Row 2g: Program Service Revenue"),
    Field("investment_income", "Row 3: Investment Income"),
    Field("tax_exempt_bond_income", "Row 4: Tax Exempt Bond Income"),
    Field("royalties", "Row 5: Royalties")
  ]

  /** Part VIII rows 6a to 7d. */
  const PartVIIIRows6To7: seq<Field> := [
    Field("gross_rents_real", "Row 6a(i): Gross Rents (Real)"),
    Field("gross_rents_personal", "Row 6a(ii): Gross Rents (Personal)"),
    Field("rental_expenses_real", "Row 6b(i): Rental Expenses (Real)"),
    Field("rental_expenses_personal", "Row 6b(ii): Rental Expenses (Personal)"),
    Field("rental_income_real", "Row 6c(i): Rental Income (Real)"),
    Field("rental_income_personal", "Row 6c(ii): Rental Income (Personal)"),
    Field("net_rental_income", "Row 6d: Net Rental Income"),
    Field("gross_sales_securities", "Row 7a(i): Gross Sales (Securities)"),
    Field("gross_sales_other", "Row 7a(ii): Gross Sales (Other)"),
    Field("cost_basis_securities", "Row 7b(i): Cost Basis (Securities)"),
    Field("cost_basis_other", "Row 7b(ii): Cost Basis (Other)"),
    Field("gain_loss_securities", "Row 7c(i): Gain/Loss (Securities)"),
    Field("gain_loss_other", "Row 7c(ii): Gain/Loss (Other)"),
    Field("net_gain_loss", "Row 7d: Net Gain/Loss")
  ]

  /** Part VIII rows 8a to 12. */
  const PartVIIIRows8To12: seq<Field> := [
    Field("fundraising_gross_income", "Row 8a: Fundraising Gross Income"),
    Field("fundraising_8a_other", "Row 8a(ii): Fundraising Other"),
    Field("fundraising_direct_expenses", "Row 8b: Fundraising Expenses"),
    Field("fundraising_net_income", "Row 8c: Fundraising Net Income"),
    Field("gaming_gross_income", "Row 9a: Gaming Gross Income"),
    Field("gaming_direct_expenses", "Row 9b: Gaming Expenses"),
    Field("gaming_net_income", "Row 9c: Gaming Net Income"),
    Field("inventory_gross_sales", "Row 10a: Inventory Gross Sales"),
    Field("inventory_cost_of_goods", "Row 10b: Cost of Goods"),
    Field("inventory_net_income", "Row 10c: Inventory Net Income"),
    Field("other_revenue_total", "Row 11e: Other Revenue Total"),
    Field("total_revenue", "Row 12: Total Revenue")
  ]

  /** Part IX, statement of functional expenses, in display order. */
  const PartIXFields: seq<Field> := [
    Field("grants_domestic_organizations", "Row 1: Grants to Domestic Orgs"),
    Field("professional_fundraising_services", "Row 11e: Professional Fundraising"),
    Field("affiliate_payments", "Row 21: Payments to Affiliates"),
    Field("total_functional_expenses_a", "Row 25(A): Total Expenses"),
    Field("total_functional_expenses_b", "Row 25(B): Program Service"),
    Field("total_functional_expenses_c", "Row 25(C): Management & General"),
    Field("total_functional_expenses_d", "Row 25(D): Fundraising"),
    Field("joint_costs", "Row 26: Joint Costs")
  ]

  /** The canonical export order: page 1, then Part VIII, then Part IX. */
  const AllFields: seq<Field> := Page1Fields + PartVIIIFields + PartIXFields

  /** No key is listed twice. */
  ghost predicate UniqueKeys(fields: seq<Field>) {
    forall i, j :: 0 <= i < j < |fields| ==> fields[i].key != fields[j].key
  }

  /** No key of `a` is a key of `b`. */
  ghost predicate DisjointKeys(a: seq<Field>, b: seq<Field>) {
    forall i, j :: 0 <= i < |a| && 0 <= j < |b| ==> a[i].key != b[j].key
  }

  /** Two key-unique lists with no key in common concatenate to a key-unique
      list. */
  lemma UniqueKeysConcat(a: seq<Field>, b: seq<Field>)
    requires UniqueKeys(a) && UniqueKeys(b) && DisjointKeys(a, b)
    ensures UniqueKeys(a + b)
  {
    var ab := a + b;
    forall i, j | 0 <= i < j < |ab| ensures ab[i].key != ab[j].key {
      if j < |a| {
        assert ab[i] == a[i] && ab[j] == a[j];
      } else if i >= |a| {
        assert ab[i] == b[i - |a|] && ab[j] == b[j - |a|];
      } else {
        assert ab[i] == a[i] && ab[j] == b[j - |a|];
      }
    }
  }

  /** The sizes of the three lists: 11 + 38 + 8 = 57 fields in export order. */
  lemma SchemaSizes()
    ensures |Page1Fields| == 11 && |PartVIIIFields| == 38 && |PartIXFields| == 8
    ensures |AllFields| == 57
  {
  }

  /** Within each section no key repeats. */
  lemma KeysUniqueWithinSections()
    ensures UniqueKeys(Page1Fields)
    ensures UniqueKeys(PartIXFields)
  {
  }

  /** Part VIII is key-unique: each row group is, and the groups share no
      key. */
  lemma {:induction false} KeysUniqueWithinPartVIII()
    ensures UniqueKeys(PartVIIIFields)
  {
    PartVIIIRows1To5Keys();
    PartVIIIRows1To7Keys();
    PartVIIIRows6To7Keys();
    PartVIIIRows8To12Keys();
    UniqueKeysConcat(PartVIIIRows6To7, PartVIIIRows8To12);
    assert DisjointKeys(PartVIIIRows1To5, PartVIIIRows6To7 + PartVIIIRows8To12);
    UniqueKeysConcat(PartVIIIRows1To5, PartVIIIRows6To7 + PartVIIIRows8To12);
    assert PartVIIIFields == PartVIIIRows1To5 + (PartVIIIRows6To7 + PartVIIIRows8To12);
  }

  /** Rows 1 to 5 repeat no key. */
  lemma PartVIIIRows1To5Keys()
    ensures UniqueKeys(PartVIIIRows1To5)
  {
  }

  /** Rows 1 to 5 and rows 6 and 7 share no key. */
  lemma PartVIIIRows1To7Keys()
    ensures DisjointKeys(PartVIIIRows1To5, PartVIIIRows6To7)
  {
  }

  /** Rows 6 and 7 repeat no key and share none with rows 8 to 12. */
  lemma PartVIIIRows6To7Keys()
    ensures UniqueKeys(PartVIIIRows6To7) && DisjointKeys(PartVIIIRows6To7, PartVIIIRows8To12)
  {
  }

  /** Rows 8 to 12 repeat no key and share none with rows 1 to 5. */
  lemma PartVIIIRows8To12Keys()
    ensures UniqueKeys(PartVIIIRows8To12) && DisjointKeys(PartVIIIRows1To5, PartVIIIRows8To12)
  {
  }

  /** Across sections keys do repeat: `total_revenue`, labelled "Row 12:
      Total Revenue" both times, is field 3 of page 1 and field 37 of
      Part VIII, so the export list is not key-unique. */
  lemma TotalRevenueListedTwice()
    ensures Page1Fields[3] == PartVIIIFields[37] == Field("total_revenue", "Row 12: Total Revenue")
    ensures AllFields[3] == AllFields[|Page1Fields| + 37]
    ensures !UniqueKeys(AllFields)
  {
    assert AllFields[3] == Page1Fields[3];
    assert AllFields[|Page1Fields| + 37] == PartVIIIFields[37];
  }

  /** That is the only key page 1 and Part VIII share. */
  lemma Page1PartVIIIShareOnlyTotalRevenue()
    ensures forall i, j ::
              0 <= i < |Page1Fields| && 0 <= j < |PartVIIIFields| && Page1Fields[i].key == PartVIIIFields[j].key ==>
                i == 3 && j == 37
  {
  }

  /** Part IX shares no key with page 1. */
  lemma Page1PartIXDisjoint()
    ensures DisjointKeys(Page1Fields, PartIXFields)
  {
  }

  /** Part IX shares no key with Part VIII. */
  lemma PartVIIIPartIXDisjoint()
    ensures DisjointKeys(PartVIIIFields, PartIXFields)
  {
  }
}
