/**
 * The team panel: members read from the "users" collection, each with an
 * avatar letter, an avatar colour chosen from the email, and a status.
 */
module Team {
  import opened Options
  import opened Text

  /** `avatarColors`. */
  const AvatarColors: seq<string> := [
    "bg-blue-500", "bg-green-500", "bg-purple-500",
    "bg-orange-500", "bg-pink-500", "bg-indigo-500"
  ]

  /** `email.charCodeAt(0) || 0`: the first UTF-16 code unit, which for a
      character beyond U+FFFF is its high surrogate; 0 for an empty email. */
  function FirstCodeUnit(email: string): (u: nat)
    ensures u < 0x1_0000
    ensures email == [] ==> u == 0
    ensures email != [] && (email[0] as int) < 0x1_0000 ==> u == email[0] as int
  {
    if email == [] then 0
    else if (email[0] as int) < 0x1_0000 then email[0] as int
    else 0xD800 + (email[0] as int - 0x1_0000) / 0x400
  }

  /** `getColorForEmail`. */
  function ColorForEmail(email: string): (c: string)
    ensures c in AvatarColors
    ensures c == AvatarColors[FirstCodeUnit(email) % |AvatarColors|]
  {
    AvatarColors[FirstCodeUnit(email) % |AvatarColors|]
  }

  /** An empty email gets the first colour. */
  lemma EmptyEmailColor(email: string)
    requires email == ""
    ensures ColorForEmail(email) == AvatarColors[0]
  {
  }

  /** Only the first character decides the colour. */
  lemma ColorByFirstChar(a: string, b: string)
    requires a != [] && b != [] && a[0] == b[0]
    ensures ColorForEmail(a) == ColorForEmail(b)
  {
  }

  /** Characters six code units apart share a colour; neighbours do not. */
  lemma ColorPeriod(a: string, b: string)
    requires a != [] && b != []
    requires (a[0] as int) < 0x1_0000 && (b[0] as int) < 0x1_0000
    ensures b[0] as int == a[0] as int + 6 ==> ColorForEmail(a) == ColorForEmail(b)
    ensures b[0] as int == a[0] as int + 1 ==> ColorForEmail(a) != ColorForEmail(b)
  {
    var i, j := FirstCodeUnit(a) % 6, FirstCodeUnit(b) % 6;
    if b[0] as int == a[0] as int + 1 {
      assert i != j;
      assert AvatarColors[i] != AvatarColors[j];
    }
  }

  /** A "users" document: the status field may be missing. */
  datatype MemberDoc = MemberDoc(name: string, email: string, status: Option<string>)

  datatype Member = Member(name: string, email: string, status: string)

  /** The member mapping: a missing or empty status reads "Offline". */
  function ToMember(doc: MemberDoc): (m: Member)
    ensures m.name == doc.name && m.email == doc.email
    ensures m.status != ""
    ensures doc.status.None? || doc.status == Some("") ==> m.status == "Offline"
    ensures doc.status.Some? && doc.status.value != "" ==> m.status == doc.status.value
  {
    Member(doc.name, doc.email,
           if doc.status.Some? && doc.status.value != "" then doc.status.value else "Offline")
  }

  /** Reading a member back as a document changes nothing. */
  lemma ToMemberIdempotent(doc: MemberDoc)
    ensures var m := ToMember(doc);
      ToMember(MemberDoc(m.name, m.email, Some(m.status))) == m
  {
  }

  /** `email.charAt(0).toUpperCase()`: the first character upper-cased
      (ASCII letters), "" for an empty email. */
  function AvatarLetter(email: string): (s: string)
    requires email == [] || (email[0] as int) < 0x1_0000
    ensures email == [] <==> s == ""
    ensures email != [] ==> s == [UpperChar(email[0])]
    ensures forall i :: 0 <= i < |s| ==> !('a' <= s[i] <= 'z')
  {
    if email == [] then "" else [UpperChar(email[0])]
  }

  /** The status badge class; a status outside the four known ones has
      none. */
  function StatusBadge(status: string): (c: Option<string>)
    ensures c.Some? <==> status in {"Online", "In Progress", "Pending", "Offline"}
  {
    if status == "Online" then Some("bg-green-100 text-green-800")
    else if status == "In Progress" then Some("bg-yellow-100 text-yellow-800")
    else if status == "Pending" then Some("bg-gray-100 text-gray-800")
    else if status == "Offline" then Some("bg-gray-100 text-gray-800")
    else None
  }

  /** Every member, after defaulting, has a badge unless the stored status
      is a non-empty unknown text. */
  lemma DefaultedStatusHasBadge(doc: MemberDoc)
    requires doc.status.None? || doc.status == Some("")
    ensures StatusBadge(ToMember(doc).status).Some?
  {
  }
}
