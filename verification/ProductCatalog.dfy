/** The action rules of `business_rules/catalog.py`. */
module ProductCatalog {
  import opened Prelude
  import opened Usage

  datatype Rule = Rule(required: string, limit: Option<string>, period: Period)

  const BUSINESS_PRODUCTS: set<string> := {"zatca", "typing", "chat", "blog"}

  function Flag(required: string): Option<Rule> {
    Some(Rule(required, None, NoPeriod))
  }

  function Quota(required: string, limit: string, period: Period): Option<Rule> {
    Some(Rule(required, Some(limit), period))
  }

  function ZatcaRule(action: string): Option<Rule> {
    match action
    case "generate_document" => Quota("zatca.enabled", "zatca.documents_per_month", PerMonth)
    case "export_pdf" => Flag("zatca.pdf_export")
    case "export_xml" => Flag("zatca.xml_export")
    case "generate_qr" => Flag("zatca.qr_generation")
    case "use_premium_template" => Flag("zatca.templates_premium")
    case "create_business_profile" => Quota("zatca.enabled", "zatca.business_profiles_limit", InTotal)
    case _ => None
  }

  function TypingRule(action: string): Option<Rule> {
    match action
    case "start_test" => Quota("typing.enabled", "typing.tests_per_day", PerDay)
    case "complete_test" => Flag("typing.enabled")
    case "generate_certificate" => Quota("typing.certificate_generation", "typing.certificates_per_month", PerMonth)
    case "create_custom_test" => Flag("typing.custom_tests")
    case "view_analytics" => Flag("typing.analytics")
    case "use_premium_lesson" => Flag("typing.premium_tests")
    case _ => None
  }

  function ChatRule(action: string): Option<Rule> {
    match action
    case "send_message" => Quota("chat.enabled", "chat.messages_per_day", PerDay)
    case "upload_file" => Quota("chat.file_upload", "chat.uploads_per_day", PerDay)
    case "create_room" => Quota("chat.enabled", "chat.group_rooms_limit", InTotal)
    case "use_ai_assistant" => Flag("chat.ai_assistant_access")
    case _ => None
  }

  function BlogRule(action: string): Option<Rule> {
    match action
    case "comment" => Flag("blog.can_comment")
    case "write_post" => Quota("blog.can_write_posts", "blog.posts_per_month", PerMonth)
    case "upload_media" => Quota("blog.media_upload", "blog.media_upload_mb", PerMonth)
    case "manage_comments" => Flag("blog.moderation_tools")
    case "use_seo_tools" => Flag("blog.seo_tools")
    case _ => None
  }

  function ActionRule(product: string, action: string): Option<Rule> {
    match product
    case "zatca" => ZatcaRule(action)
    case "typing" => TypingRule(action)
    case "chat" => ChatRule(action)
    case "blog" => BlogRule(action)
    case _ => None
  }

  /** `key` is the natural key "product.feature". */
  predicate IsNaturalKey(product: string, key: string) {
    product + "." <= key
  }

  predicate IsWellFormed(product: string, rule: Rule) {
    && IsNaturalKey(product, rule.required)
    && (rule.limit.Some? ==> IsNaturalKey(product, rule.limit.value) && rule.period != NoPeriod)
  }

  lemma ZatcaKeys(action: string)
    ensures ZatcaRule(action).Some? ==> IsWellFormed("zatca", ZatcaRule(action).value)
  {
  }

  lemma TypingKeys(action: string)
    ensures TypingRule(action).Some? ==> IsWellFormed("typing", TypingRule(action).value)
  {
  }

  lemma ChatKeys(action: string)
    ensures ChatRule(action).Some? ==> IsWellFormed("chat", ChatRule(action).value)
  {
  }

  lemma BlogKeys(action: string)
    ensures BlogRule(action).Some? ==> IsWellFormed("blog", BlogRule(action).value)
  {
  }

  /** Every rule belongs to a catalogued product, names natural keys of that product only, and counts its limit per some
      period. */
  lemma RulesUseNaturalKeys(product: string, action: string)
    requires ActionRule(product, action).Some?
    ensures product in BUSINESS_PRODUCTS && '.' !in product
    ensures IsWellFormed(product, ActionRule(product, action).value)
  {
    ZatcaKeys(action);
    TypingKeys(action);
    ChatKeys(action);
    BlogKeys(action);
  }

  predicate EndsWith(s: string, suffix: string) {
    |suffix| <= |s| && s[|s| - |suffix|..] == suffix
  }

  /** A limit per day is counted per day, one per month per month, and a plain limit in total. */
  predicate CountsAsNamed(rule: Rule) {
    rule.limit.Some? ==>
      && (EndsWith(rule.limit.value, "_per_day") <==> rule.period == PerDay)
      && (EndsWith(rule.limit.value, "_per_month") ==> rule.period == PerMonth)
      && (EndsWith(rule.limit.value, "_limit") <==> rule.period == InTotal)
  }

  lemma ZatcaCountsAsNamed(action: string)
    ensures ZatcaRule(action).Some? ==> CountsAsNamed(ZatcaRule(action).value)
  {
  }

  lemma TypingCountsAsNamed(action: string)
    ensures TypingRule(action).Some? ==> CountsAsNamed(TypingRule(action).value)
  {
  }

  lemma ChatCountsAsNamed(action: string)
    ensures ChatRule(action).Some? ==> CountsAsNamed(ChatRule(action).value)
  {
  }

  lemma BlogCountsAsNamed(action: string)
    ensures BlogRule(action).Some? ==> CountsAsNamed(BlogRule(action).value)
  {
  }

  lemma LimitsCountAsNamed(product: string, action: string)
    requires ActionRule(product, action).Some?
    ensures CountsAsNamed(ActionRule(product, action).value)
  {
    ZatcaCountsAsNamed(action);
    TypingCountsAsNamed(action);
    ChatCountsAsNamed(action);
    BlogCountsAsNamed(action);
  }
}
