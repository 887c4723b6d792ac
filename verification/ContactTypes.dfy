/** Contacts, the easy form of the contact information of an entity. */
module ContactTypes {
  import opened Wrappers
  import opened Text

  datatype Lang = Lang(preference: Option<u64>, tag: string)

  datatype NameParts = NameParts(
    prefixes: Option<seq<string>>,
    surnames: Option<seq<string>>,
    middleNames: Option<seq<string>>,
    givenNames: Option<seq<string>>,
    suffixes: Option<seq<string>>)

  datatype PostalAddress = PostalAddress(
    preference: Option<u64>,
    contexts: Option<seq<string>>,
    fullAddress: Option<string>,
    streetParts: Option<seq<string>>,
    locality: Option<string>,
    regionName: Option<string>,
    regionCode: Option<string>,
    countryName: Option<string>,
    countryCode: Option<string>,
    postalCode: Option<string>)

  datatype Email = Email(preference: Option<u64>, contexts: Option<seq<string>>, email: string)

  datatype Phone = Phone(
    preference: Option<u64>,
    contexts: Option<seq<string>>,
    phone: string,
    features: Option<seq<string>>)

  datatype Contact = Contact(
    langs: Option<seq<Lang>>,
    kind: Option<string>,
    fullName: Option<string>,
    nameParts: Option<NameParts>,
    nickNames: Option<seq<string>>,
    titles: Option<seq<string>>,
    roles: Option<seq<string>>,
    organizationNames: Option<seq<string>>,
    postalAddresses: Option<seq<PostalAddress>>,
    emails: Option<seq<Email>>,
    phones: Option<seq<Phone>>,
    contactUris: Option<seq<string>>,
    urls: Option<seq<string>>)
  {
    predicate IsNonEmpty() {
      || langs.Some? || kind.Some? || fullName.Some? || nameParts.Some? || nickNames.Some?
      || titles.Some? || roles.Some? || organizationNames.Some? || postalAddresses.Some?
      || emails.Some? || phones.Some? || contactUris.Some? || urls.Some?
    }
  }

  /** Unicode case conversion, which the standard library provides. */
  datatype UnicodeCase = UnicodeCase(lower: string -> string, upper: string -> string)

  const CONTEXTS: seq<string> := ["home", "work", "office", "private", "mobile", "cell"]

  predicate IsContext(s: string) {
    s in CONTEXTS
  }

  /** Whether a region or country is taken for a code rather than a name. */
  predicate IsCode(uc: UnicodeCase, s: string) {
    Utf8Len(s) == 2 && uc.upper(s) == s
  }
}
