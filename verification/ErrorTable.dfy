/** The texts of +CME errors (section 9.2 of 3GPP TS 27.007), which +CMEE 2 prints instead of their numbers. */
module ErrorTable {
  /** The length of the table: one more than the last number with a text. */
  const TABLE_SIZE: nat := 163

  const RESERVED := "reserved error code"

  /** Entries 0 to 19. */
  function DeviceText(n: nat): string {
    match n
    case 0 => "phone failure"
    case 1 => "no connection to phone"
    case 2 => "phone-adaptor link reserved"
    case 3 => "operation not allowed"
    case 4 => "operation not supported"
    case 5 => "PH-SIM PIN required"
    case 6 => "PH-FSIM PIN required"
    case 7 => "PH-FSIM PUK required"
    case 10 => "SIM not inserted"
    case 11 => "SIM PIN required"
    case 12 => "SIM PUK required"
    case 13 => "SIM failure"
    case 14 => "SIM busy"
    case 15 => "SIM wrong"
    case 16 => "incorrect password"
    case 17 => "SIM PIN2 required"
    case 18 => "SIM PUK2 required"
    case _ => ""
  }

  /** Entries 20 to 39. */
  function InputText(n: nat): string {
    match n
    case 20 => "memory full"
    case 22 => "not found"
    case 23 => "memory failure"
    case 24 => "text string too long"
    case 25 => "invalid characters in text string"
    case 26 => "dial string too long"
    case 27 => "invalid characters in dial string"
    case 30 => "no network service"
    case 31 => "network timeout"
    case 32 => "network not allowed - only emergency calls"
    case _ => ""
  }

  /** Entries 40 to 45. */
  function KeyText(n: nat): string {
    match n
    case 40 => "network personalization PIN required"
    case 41 => "network personalization PUK required"
    case 42 => "network subset personalization PIN required"
    case 43 => "network subset personalization PUK required"
    case 44 => "service provider personalization PIN required"
    case 45 => "service provider personalization PUK required"
    case _ => ""
  }

  /** Entries 46 to 110. */
  function GeneralText(n: nat): string {
    match n
    case 46 => "corporate personalization PIN required"
    case 47 => "corporate personalization PUK required"
    case 48 => "hidden key required"
    case 49 => "EAP method not supported"
    case 50 => "incorrect parameters"
    case 100 => "unknown"
    case 103 => "illegal MS (#3)"
    case 106 => "illegal ME (#7)"
    case 107 => "GPRS service not allowed (#7)"
    case _ => ""
  }

  /** Entries 111 to 139. */
  function PacketText(n: nat): string {
    match n
    case 111 => "PLMN not allowed (#11)"
    case 112 => "location area not allowed (#12)"
    case 113 => "roaming not allowed in this location area (#13)"
    case 132 => "service option not supported (#32)"
    case 133 => "requested service option not subscribed (#33)"
    case 134 => "service option temporarily out of order (#34)"
    case _ => ""
  }

  /** Entries 140 to 155. */
  function GroupText(n: nat): string {
    match n
    case 148 => "unspecified GPRS error"
    case 149 => "PDP authentication failure"
    case 150 => "invalid mobile class"
    case 151 => "VBS/VGCS not supported by the network"
    case 152 => "no service subscription on SIM"
    case 153 => "no subscription for group ID"
    case 154 => "group ID not actived on SIM"
    case 155 => "no matching notification"
    case _ => ""
  }

  /** Entries 156 to 162. */
  function CallText(n: nat): string {
    match n
    case 156 => "VBS/VGCS call already present"
    case 157 => "congestion"
    case 158 => "network failure"
    case 159 => "uplink busy"
    case 160 => "no access rights for SIM file"
    case 161 => "no subscription for priority"
    case 162 => "operation not applicable or not possible"
    case _ => ""
  }

  /** The table; a number without a text has an empty entry. */
  function Entry(n: nat): string
    requires n < TABLE_SIZE
  {
    if n < 20 then DeviceText(n)
    else if n < 40 then InputText(n)
    else if n < 46 then KeyText(n)
    else if n < 111 then GeneralText(n)
    else if n < 140 then PacketText(n)
    else if n < 156 then GroupText(n)
    else CallText(n)
  }

  predicate Listed(n: nat) {
    n < TABLE_SIZE && Entry(n) != ""
  }

  /** What is printed for a number. */
  function TextFor(n: nat): string {
    if Listed(n) then Entry(n) else RESERVED
  }

  /** Reads a text back: its length, and where that is shared some character, tells which one it is. */
  function NumberFor(text: string): nat {
    match |text|
    case 7 => 100
    case 8 => 14
    case 9 => if text[0] == 'S' then 15 else 22
    case 10 => 157
    case 11 => if text[0] == 'S' then 13 else if text[0] == 'm' then 20 else 159
    case 13 => 0
    case 14 => 23
    case 15 => if text[9] == 'i' then 31 else if text[9] == 'S' then 103 else if text[9] == 'E' then 106 else 158
    case 16 => if text[5] == 'o' then 10 else if text[5] == 'I' then 11 else 12
    case 17 => if text[5] == 'I' then 17 else 18
    case 18 => if text[0] == 'i' then 16 else 30
    case 19 => if text[0] == 'P' then 5 else if text[0] == 'h' then 48 else 163
    case 20 => if text[2] == 'x' then 24 else if text[2] == 'a' then 26
              else if text[2] == 'c' then 50 else if text[2] == 'v' then 150
              else if text[9] == 'I' then 6 else 7
    case 21 => 3
    case 22 => if text[0] == 'n' then 1 else if text[0] == 'P' then 111 else 148
    case 23 => 4
    case 24 => if text[0] == 'E' then 49 else 155
    case 26 => 149
    case 27 => if text[0] == 'p' then 2 else 154
    case 28 => if text[20] == 'g' then 153 else 161
    case 29 => if text[0] == 'G' then 107 else if text[0] == 'V' then 156 else 160
    case 30 => 152
    case 31 => 112
    case 33 => if text[22] == 't' then 25 else 27
    case 34 => 132
    case 36 => if text[25] == 'I' then 40 else 41
    case 37 => 151
    case 38 => if text[27] == 'I' then 46 else 47
    case 40 => 162
    case 42 => 32
    case 43 => if text[32] == 'I' then 42 else 43
    case 45 => if text[34] == 'I' then 44 else if text[34] == 'U' then 45 else if text[34] == 'r' then 133 else 134
    case 47 => 113
    case _ => TABLE_SIZE
  }

  lemma DeviceTextReadsBack(n: nat)
    requires DeviceText(n) != ""
    ensures NumberFor(DeviceText(n)) == n
  {
  }

  lemma InputTextReadsBack(n: nat)
    requires InputText(n) != ""
    ensures NumberFor(InputText(n)) == n
  {
  }

  lemma KeyTextReadsBack(n: nat)
    requires KeyText(n) != ""
    ensures NumberFor(KeyText(n)) == n
  {
  }

  lemma GeneralTextReadsBack(n: nat)
    requires GeneralText(n) != ""
    ensures NumberFor(GeneralText(n)) == n
  {
  }

  lemma PacketTextReadsBack(n: nat)
    requires PacketText(n) != ""
    ensures NumberFor(PacketText(n)) == n
  {
  }

  lemma GroupTextReadsBack(n: nat)
    requires GroupText(n) != ""
    ensures NumberFor(GroupText(n)) == n
  {
  }

  lemma CallTextReadsBack(n: nat)
    requires CallText(n) != ""
    ensures NumberFor(CallText(n)) == n
  {
  }

  lemma ReservedReadsBack()
    ensures NumberFor(RESERVED) == TABLE_SIZE
  {
  }

  /** Every listed number is told by its text; all others share one text. */
  lemma TextsReadBack(n: nat)
    ensures NumberFor(TextFor(n)) == if Listed(n) then n else TABLE_SIZE
    ensures Listed(n) ==> n < TABLE_SIZE
  {
    hide NumberFor, DeviceText, InputText, KeyText, GeneralText, PacketText, GroupText, CallText;
    if Listed(n) {
      if n < 20 {
        DeviceTextReadsBack(n);
      } else if n < 40 {
        InputTextReadsBack(n);
      } else if n < 46 {
        KeyTextReadsBack(n);
      } else if n < 111 {
        GeneralTextReadsBack(n);
      } else if n < 140 {
        PacketTextReadsBack(n);
      } else if n < 156 {
        GroupTextReadsBack(n);
      } else {
        CallTextReadsBack(n);
      }
    } else {
      ReservedReadsBack();
    }
  }

  /** Two numbers print the same text exactly when they are equal or neither has a text of its own. */
  lemma TextsAreEqualIff(a: nat, b: nat)
    ensures TextFor(a) == TextFor(b) <==> a == b || (!Listed(a) && !Listed(b))
  {
    hide Listed, Entry, NumberFor;
    TextsReadBack(a);
    TextsReadBack(b);
  }
}
