/**
 * The module's fortification table (`$aclList`): for each named level, the
 * paths under the application root that stay writable by the web server
 * once the rest of the install is locked down.
 */
module Fortification {
  import opened Php

  /** `$aclList[$level]`, or null for a level the table does not name. */
  function AclList(level: string): Option<seq<string>> {
    if level == "min" then Some(["attachments", "downloads", "templates_c", ".htaccess"])
    else if level == "max" then Some(["attachments", "downloads", "templates_c"])
    else None
  }

  /** Only "min" and "max" have entries; "max" leaves fewer paths writable than "min". */
  lemma AclLevels(level: string)
    ensures AclList(level).Some? <==> level == "min" || level == "max"
    ensures AclList("min").value == AclList("max").value + [".htaccess"]
    ensures forall p | p in AclList("max").value :: p in AclList("min").value
    ensures ".htaccess" in AclList("min").value && ".htaccess" !in AclList("max").value
  {
  }
}
