/** The Twig runtime helpers of the navigation: price display and the user's role badge. */
module NavExtensionRuntime {

  const Free := "Gratuit"
  const AdminBadge := "<span class=\"badge text-bg-warning\">Admin</span>"
  const ClientBadge := "<span class=\"badge text-bg-primary\">Client</span>"
  const UnknownBadge := "<span class=\"badge text-bg-secondary\">Inconnu</span>"

  /**
   * `numberFormat`: zero shows as "Gratuit", anything else as PHP's `number_format` output followed
   * by the euro sign. `phpNumberFormat` stands for the library function, whose parameters are
   * (number, decimals, decimal separator, thousands separator); the helper hands it its own
   * `thousandsSep` third and `decPoint` fourth, in that order (defaults 2, "," and ".").
   */
  function NumberFormat(number: int, decimals: int, thousandsSep: string, decPoint: string,
                        phpNumberFormat: (int, int, string, string) -> string): (r: string)
    ensures r == Free <==> number == 0
    ensures number != 0 ==>
              |r| > 0 && r[|r| - 1] == '€' && r[..|r| - 1] == phpNumberFormat(number, decimals, thousandsSep, decPoint)
  {
    if number != 0 then
      var formatted := phpNumberFormat(number, decimals, thousandsSep, decPoint);
      assert (formatted + "€")[..|formatted|] == formatted;
      formatted + "€"
    else Free
  }

  /**
   * `badgeUser`: the badge for the first role only. An empty role list reads `null` at index 0,
   * which matches neither case, so it gets the default badge.
   */
  function BadgeUser(roles: seq<string>): (r: string)
    ensures r == AdminBadge <==> |roles| > 0 && roles[0] == "ROLE_ADMIN"
    ensures r == ClientBadge <==> |roles| > 0 && roles[0] == "ROLE_USER"
    ensures r == UnknownBadge <==> !(|roles| > 0 && roles[0] in {"ROLE_ADMIN", "ROLE_USER"})
  {
    if |roles| > 0 && roles[0] == "ROLE_ADMIN" then AdminBadge
    else if |roles| > 0 && roles[0] == "ROLE_USER" then ClientBadge
    else UnknownBadge
  }

  /** Roles after the first never change the badge, and the badge is one of three strings. */
  lemma OnlyFirstRoleMatters(roles: seq<string>, others: seq<string>)
    requires |roles| > 0
    ensures BadgeUser(roles + others) == BadgeUser([roles[0]])
    ensures BadgeUser(roles) in {AdminBadge, ClientBadge, UnknownBadge}
  {
    assert (roles + others)[0] == roles[0];
  }
}
