/** Card policies follow the number of the card (internal/db/card_policy.go and
    internal/db/card_policy_canonical_migration.go). */
module CardPolicy {

  import opened Text
  import opened PolicyMerge

  datatype Settings = Settings(networkEnabled: bool, vowifiEnabled: bool, airplaneEnabled: bool, ipVersion: string, apn: string,
                               createdAt: int)

  predicate IsQuote(c: char) { c == '"' }

  predicate IsFiller(c: char) { c == 'F' || c == 'f' }

  /** The number without surrounding white space, quotes and trailing filler digits. */
  function CanonicalICCID(iccid: string): (v: string) {
    TrimRight(Trim(TrimSpace(iccid), IsQuote), IsFiller)
  }

  ghost predicate Only(s: string, a: char, b: char) {
    forall i :: 0 <= i < |s| ==> s[i] == a || s[i] == b
  }

  /** A card number is recognised whatever white space, quotes and filler are around it. */
  lemma CanonicalStrips(blank: string, quote: string, number: string, filler: string, quote': string, blank': string)
    requires AllCut(blank, IsSpace) && AllCut(blank', IsSpace) && Only(quote, '"', '"') && Only(quote', '"', '"')
    requires Only(filler, 'F', 'f') && number != "" && !IsSpace(number[0]) && number[0] != '"'
    requires var last := number[|number| - 1]; !IsSpace(last) && last != '"' && last != 'F' && last != 'f'
    ensures CanonicalICCID(blank + (quote + (number + filler) + quote') + blank') == number
  {
    OnlyIsCut(quote, quote', filler);
    FilledEnds(number, filler);
    QuotedEnds(quote, number + filler, quote');
    Unwraps(blank, quote + (number + filler) + quote', blank', quote, number + filler, quote', number, filler);
  }

  lemma OnlyIsCut(quote: string, quote': string, filler: string)
    requires Only(quote, '"', '"') && Only(quote', '"', '"') && Only(filler, 'F', 'f')
    ensures AllCut(quote, IsQuote) && AllCut(quote', IsQuote) && AllCut(filler, IsFiller)
  {}

  lemma Unwraps(blank: string, quoted: string, blank': string, quote: string, filled: string, quote': string,
                number: string, filler: string)
    requires quoted == quote + filled + quote' && filled == number + filler
    requires AllCut(blank, IsSpace) && AllCut(blank', IsSpace) && quoted != "" && !IsSpace(quoted[0]) && !IsSpace(quoted[|quoted| - 1])
    requires AllCut(quote, IsQuote) && AllCut(quote', IsQuote) && filled != "" && !IsQuote(filled[0]) && !IsQuote(filled[|filled| - 1])
    requires AllCut(filler, IsFiller) && number != "" && !IsFiller(number[|number| - 1])
    ensures CanonicalICCID(blank + quoted + blank') == number
  {
    StripsBlank(blank, quoted, blank');
    StripsQuotes(quote, filled, quote');
    StripsFiller(number, filler);
    CanonicalOf(blank + quoted + blank', quoted, filled, number);
  }

  lemma StripsBlank(blank: string, core: string, blank': string)
    requires AllCut(blank, IsSpace) && AllCut(blank', IsSpace) && core != "" && !IsSpace(core[0]) && !IsSpace(core[|core| - 1])
    ensures TrimSpace(blank + core + blank') == core
  {
    TrimUnwraps(blank, core, blank', IsSpace);
  }

  lemma StripsQuotes(quote: string, core: string, quote': string)
    requires AllCut(quote, IsQuote) && AllCut(quote', IsQuote) && core != "" && !IsQuote(core[0]) && !IsQuote(core[|core| - 1])
    ensures Trim(quote + core + quote', IsQuote) == core
  {
    TrimUnwraps(quote, core, quote', IsQuote);
  }

  lemma StripsFiller(number: string, filler: string)
    requires AllCut(filler, IsFiller) && number != "" && !IsFiller(number[|number| - 1])
    ensures TrimRight(number + filler, IsFiller) == number
  {
    RightIsCut(number, filler, IsFiller);
  }

  lemma CanonicalOf(iccid: string, quoted: string, filled: string, number: string)
    requires TrimSpace(iccid) == quoted && Trim(quoted, IsQuote) == filled && TrimRight(filled, IsFiller) == number
    ensures CanonicalICCID(iccid) == number
  {}

  lemma FilledEnds(number: string, filler: string)
    requires number != "" && !IsSpace(number[0]) && !IsQuote(number[0])
    requires !IsSpace(number[|number| - 1]) && !IsQuote(number[|number| - 1]) && AllCut(filler, IsFiller)
    ensures var s := number + filler;
            && s != "" && !IsSpace(s[0]) && !IsQuote(s[0]) && !IsSpace(s[|s| - 1]) && !IsQuote(s[|s| - 1])
  {
    var s := number + filler;
    assert s[0] == number[0];
    assert s[|s| - 1] == if filler == "" then number[|number| - 1] else filler[|filler| - 1];
  }

  lemma QuotedEnds(quote: string, core: string, quote': string)
    requires core != "" && !IsSpace(core[0]) && !IsSpace(core[|core| - 1])
    requires AllCut(quote, IsQuote) && AllCut(quote', IsQuote)
    ensures var s := quote + core + quote'; s != "" && !IsSpace(s[0]) && !IsSpace(s[|s| - 1])
  {
    var s := quote + core + quote';
    assert s[0] == if quote == "" then core[0] else quote[0];
    assert s[|s| - 1] == if quote' == "" then core[|core| - 1] else quote'[|quote'| - 1];
  }

  lemma TrimShortens(s: string, cut: char -> bool)
    ensures |Trim(s, cut)| <= |s|
    ensures |Trim(s, cut)| == |s| ==> Trim(s, cut) == s
  {
    var t := TrimLeft(s, cut);
    assert |Trim(s, cut)| <= |t| <= |s|;
  }

  predicate IsClean(v: string) {
    v != "" ==> !IsSpace(v[0]) && !IsSpace(v[|v| - 1]) && !IsQuote(v[0]) && !IsQuote(v[|v| - 1])
  }

  /** A canonical number is its own canonical form exactly when no white space or quote is left at its ends. */
  lemma CanonicalTwice(iccid: string)
    ensures CanonicalICCID(CanonicalICCID(iccid)) == CanonicalICCID(iccid) <==> IsClean(CanonicalICCID(iccid))
  {
    var v := CanonicalICCID(iccid);
    var t := TrimSpace(v);
    TrimIsIdentity(v, IsSpace);
    TrimShortens(v, IsSpace);
    TrimIsIdentity(t, IsQuote);
    TrimShortens(t, IsQuote);
  }

  /** The last character alone is cut. */
  lemma CutLast(s: string, cut: char -> bool)
    requires |s| > 1 && cut(s[|s| - 1]) && !cut(s[|s| - 2])
    ensures TrimRight(s, cut) == s[..|s| - 1]
    ensures !cut(s[0]) ==> Trim(s, cut) == s[..|s| - 1]
  {}

  /** An odd quote before the filler is not removed at first, but later. */
  lemma OddQuoting(odd: string, quoted: string, plain: string)
    requires odd == "89\"F" && quoted == "89\"" && plain == "89"
    ensures CanonicalICCID(odd) == quoted && CanonicalICCID(quoted) == plain
  {
    TrimIsIdentity(odd, IsSpace);
    TrimIsIdentity(odd, IsQuote);
    CutLast(odd, IsFiller);
    assert odd[..3] == quoted;
    TrimIsIdentity(quoted, IsSpace);
    CutLast(quoted, IsQuote);
    assert quoted[..2] == plain;
  }

  function ICCIDCanon(): Canon<string> {
    Canon(CanonicalICCID, "")
  }

  /** Numbers whose canonical form is clean settle, and so merge to one result, once and for all. */
  lemma CleanNumbersSettle(all: seq<Policy<string, Settings>>)
    requires forall p :: p in all ==> IsClean(CanonicalICCID(p.iccid))
    ensures Settles(ICCIDCanon(), all) && NoClash(ICCIDCanon(), all)
  {
    forall p | p in all ensures Form(ICCIDCanon(), Form(ICCIDCanon(), p.iccid)) == Form(ICCIDCanon(), p.iccid) {
      CanonicalTwice(p.iccid);
    }
    SettledNeverClash(ICCIDCanon(), all);
  }

  /** With odd quoting two stored numbers stand in each other's way: if the first is rewritten first, its new
      number is still taken. */
  lemma OddQuotingClashes(p: Policy<string, Settings>, q: Policy<string, Settings>)
    requires p.iccid == "89\"F" && q.iccid == "89\""
    ensures Clash(ICCIDCanon(), p, q)
  {
    OddQuotingForms(p.iccid, q.iccid, "89");
    ClashOf(ICCIDCanon(), p, q, "89");
  }

  lemma OddQuotingForms(odd: string, quoted: string, plain: string)
    requires odd == "89\"F" && quoted == "89\"" && plain == "89"
    ensures Form(ICCIDCanon(), odd) == quoted != "" && Form(ICCIDCanon(), quoted) == plain != quoted
  {
    OddQuoting(odd, quoted, plain);
    assert |quoted| != |plain|;
  }

  function Length(v: string): nat { |v| }

  lemma RightTrimShortens(s: string, cut: char -> bool)
    ensures |TrimRight(s, cut)| < |s| || TrimRight(s, cut) == s
  {}

  lemma CanonicalShortens(iccid: string)
    ensures |CanonicalICCID(iccid)| < |iccid| || CanonicalICCID(iccid) == iccid
  {
    var t := TrimSpace(iccid);
    var v := Trim(t, IsQuote);
    TrimShortens(iccid, IsSpace);
    TrimShortens(t, IsQuote);
    RightTrimShortens(v, IsFiller);
  }

  lemma ICCIDShortens()
    ensures Shortens(ICCIDCanon(), Length)
  {
    forall k: string ensures Length(Form(ICCIDCanon(), k)) < Length(k) || Form(ICCIDCanon(), k) == k {
      CanonicalShortens(k);
    }
  }

  /** Once migrated, the table is as a second migration would leave it if and only if every canonical number that
      was stored is its own canonical form or canonically empty. */
  lemma MigratesOnce(all: seq<Policy<string, Settings>>, after: Table<string, Settings>, again: seq<Policy<string, Settings>>)
    requires IsMerged(ICCIDCanon(), all, after) && Lists(again, after)
    ensures IsMerged(ICCIDCanon(), again, after) <==> Stable(ICCIDCanon(), all)
  {
    ICCIDShortens();
    MergesOnce(ICCIDCanon(), Length, all, after, again);
  }

  /** A single row with an odd quote before the filler is migrated twice: its first canonical number is not the
      last. */
  lemma OddQuotingMigratesTwice(p: Policy<string, Settings>, odd: string, quoted: string, plain: string)
    requires odd == "89\"F" && quoted == "89\"" && plain == "89" && p.iccid == odd
    ensures MovesTwice(ICCIDCanon(), p, quoted, plain)
  {
    OddQuoting(odd, quoted, plain);
    assert |quoted| != |plain|;
    UnstableRowMovesTwice(ICCIDCanon(), p, quoted, plain);
  }

  /** Bring all stored numbers to their canonical form, one row for each card. */
  method MigrateCardPolicyCanonicalICCID(table: PolicyTable<string, Settings>, all: seq<Policy<string, Settings>>) returns (ok: bool)
    requires Lists(all, table.rows)
    modifies table
    ensures NoClash(ICCIDCanon(), all) || (forall p :: p in all ==> IsClean(CanonicalICCID(p.iccid))) ==> ok
    ensures ok ==> IsMerged(ICCIDCanon(), all, table.rows)
  {
    if forall p :: p in all ==> IsClean(CanonicalICCID(p.iccid)) {
      CleanNumbersSettle(all);
    }
    ok := table.Migrate(ICCIDCanon(), all);
  }
}
