/** Chain, account and asset identifiers (CAIP-2, CAIP-10 and CAIP-19) and their strings. */
module Caip {
  import opened Text
  import opened Wrappers
  import Decimal

  datatype ChainId = ChainId(namespace: string, reference: string)

  datatype AccountId = AccountId(chainId: ChainId, address: string)

  datatype AssetId = AssetId(chainId: ChainId, namespace: string, reference: string)

  // ----- Parsers, which cut at the first or the last separator

  function ParseChain(s: string): Result<ChainId, string> {
    match SplitOnce(s, ':')
    case None => Err("missing reference")
    case Some((namespace, reference)) =>
      if namespace == "" then Err("empty namespace")
      else if reference == "" then Err("empty reference")
      else Ok(ChainId(namespace, reference))
  }

  function ParseAccount(s: string): Result<AccountId, string> {
    match SplitLast(s, ':')
    case None => Err("invalid CAIP-10 format")
    case Some((chain, address)) =>
      match ParseChain(chain)
      case Err(e) => Err(e)
      case Ok(chainId) => if address == "" then Err("empty account address") else Ok(AccountId(chainId, address))
  }

  function ParseAsset(s: string): Result<AssetId, string> {
    match SplitOnce(s, '/')
    case None => Err("missing '/' separator")
    case Some((chain, asset)) =>
      match ParseChain(chain)
      case Err(e) => Err(e)
      case Ok(chainId) =>
        match SplitOnce(asset, ':')
        case None => Err("missing asset reference")
        case Some((namespace, reference)) =>
          if namespace == "" then Err("empty asset namespace")
          else if reference == "" then Err("empty asset reference")
          else Ok(AssetId(chainId, namespace, reference))
  }

  // ----- Printers

  function PrintChain(c: ChainId): string {
    c.namespace + ":" + c.reference
  }

  function PrintAccount(a: AccountId): string {
    PrintChain(a.chainId) + ":" + a.address
  }

  function PrintAsset(a: AssetId): string {
    PrintChain(a.chainId) + "/" + a.namespace + ":" + a.reference
  }

  // ----- Every accepted string is the print of what it parses to

  lemma ChainPrintsBack(s: string)
    ensures ParseChain(s).Ok? ==> PrintChain(ParseChain(s).value) == s
  {}

  lemma AccountPrintsBack(s: string)
    ensures ParseAccount(s).Ok? ==> PrintAccount(ParseAccount(s).value) == s
  {
    if ParseAccount(s).Ok? {
      ChainPrintsBack(SplitLast(s, ':').value.0);
    }
  }

  lemma AssetPrintsBack(s: string)
    ensures ParseAsset(s).Ok? ==> PrintAsset(ParseAsset(s).value) == s
  {
    if ParseAsset(s).Ok? {
      var (chain, asset) := SplitOnce(s, '/').value;
      var a := ParseAsset(s).value;
      ChainPrintsBack(chain);
      assert s == chain + "/" + asset && asset == a.namespace + ":" + a.reference;
    }
  }

  // ----- Which values survive printing: those whose parts avoid the separator each parser cuts at

  predicate ChainWritable(c: ChainId) {
    c.namespace != "" && ':' !in c.namespace && c.reference != ""
  }

  predicate AccountWritable(a: AccountId) {
    ChainWritable(a.chainId) && a.address != "" && ':' !in a.address
  }

  predicate AssetWritable(a: AssetId) {
    && ChainWritable(a.chainId) && '/' !in a.chainId.namespace && '/' !in a.chainId.reference
    && a.namespace != "" && ':' !in a.namespace && a.reference != ""
  }

  lemma ChainParsesBack(c: ChainId)
    ensures ParseChain(PrintChain(c)) == Ok(c) <==> ChainWritable(c)
  {
    if ':' !in c.namespace {
      SplitOnceFinds(c.namespace, ':', c.reference);
    }
  }

  lemma AccountParsesBack(a: AccountId)
    ensures ParseAccount(PrintAccount(a)) == Ok(a) <==> AccountWritable(a)
  {
    hide SplitLast, ParseChain, PrintChain;
    ChainParsesBack(a.chainId);
    ParsedAccountIsWritable(PrintAccount(a));
    if ':' !in a.address {
      SplitLastFinds(PrintChain(a.chainId), ':', a.address);
    }
  }

  lemma ParsedAccountIsWritable(s: string)
    ensures ParseAccount(s).Ok? ==> AccountWritable(ParseAccount(s).value)
  {}

  lemma AssetParsesBack(a: AssetId)
    ensures ParseAsset(PrintAsset(a)) == Ok(a) <==> AssetWritable(a)
  {
    hide SplitOnce, ParseChain, PrintChain;
    var chain, asset := PrintChain(a.chainId), a.namespace + ":" + a.reference;
    var s := PrintAsset(a);
    assert s == chain + "/" + asset;
    ChainParsesBack(a.chainId);
    SlashInChain(a.chainId);
    ParsedAssetIsWritable(s);
    if AssetWritable(a) {
      SplitOnceFinds(chain, '/', asset);
      SplitOnceFinds(a.namespace, ':', a.reference);
    }
  }

  lemma SlashInChain(c: ChainId)
    ensures '/' in PrintChain(c) <==> '/' in c.namespace || '/' in c.reference
  {
    var s := PrintChain(c);
    assert s[..|c.namespace|] == c.namespace && s[|c.namespace|] == ':' && s[|c.namespace| + 1..] == c.reference;
  }

  lemma ParsedAssetIsWritable(s: string)
    ensures ParseAsset(s).Ok? ==> AssetWritable(ParseAsset(s).value)
  {
    if ParseAsset(s).Ok? {
      var chain := SplitOnce(s, '/').value.0;
      ChainPrintsBack(chain);
      SlashInChain(ParseAsset(s).value.chainId);
    }
  }

  // ----- Numbered accounts

  const U32_MAX := 0xFFFF_FFFF

  function FromAccount(chainId: ChainId, account: nat): AccountId {
    AccountId(chainId, Decimal.Digits(account))
  }

  function AccountNumber(a: AccountId): Option<nat> {
    Decimal.ParseUnsigned(a.address, U32_MAX)
  }

  /** A numbered account keeps its number through its string, on every chain whose identifier can be
      written at all. */
  lemma NumberedAccountRoundTrip(chainId: ChainId, account: nat)
    requires account <= U32_MAX
    ensures AccountNumber(FromAccount(chainId, account)) == Some(account)
    ensures ParseAccount(PrintAccount(FromAccount(chainId, account))) == Ok(FromAccount(chainId, account)) <==>
            ChainWritable(chainId)
  {
    hide Decimal.Digits, Decimal.ParseUnsigned, ParseAccount, PrintAccount;
    var a := FromAccount(chainId, account);
    Decimal.DigitsAreDigits(account);
    Decimal.ParseDigits(account, U32_MAX);
    AccountParsesBack(a);
  }
}
