/** The 44 alternatives of an operation, as the Python class Operation exposes them. */
module Operations {
  import opened Prelude
  import opened Registry

  /** The wrapped types, in order of registration; the constructors stand in the same order. */
  datatype OpType =
    | AccountCreate | AccountUpdate | AssetCreate | AssetIssue
    | AssetPublishFeed | MinerCreate | MinerUpdate | MinerUpdateGlobalParameters
    | ProposalCreate | ProposalUpdate | ProposalDelete | WithdrawPermissionCreate
    | WithdrawPermissionUpdate | WithdrawPermissionClaim | WithdrawPermissionDelete | VestingBalanceCreate
    | VestingBalanceWithdraw | Custom | Assert | ContentSubmit
    | RequestToBuy | LeaveRatingAndComment | ProofOfCustody | DeliverKeys
    | Subscribe | SubscribeByAuthor | AutomaticRenewalOfSubscription | ReportStats
    | SetPublishingManager | SetPublishingRight | ContentCancellation | AssetFundPools
    | AssetReserve | AssetClaimFees | UpdateUserIssuedAsset | UpdateMonitoredAsset
    | ReadyToPublish | Transfer | UpdateUserIssuedAssetAdvanced | NonFungibleTokenCreateDefinition
    | NonFungibleTokenUpdateDefinition | NonFungibleTokenIssue | NonFungibleTokenTransfer | NonFungibleTokenUpdateData

  const OPERATION_TABLE: seq<Accessor<string, OpType>> := [
    Accessor("account_create", AccountCreate),
    Accessor("account_update", AccountUpdate),
    Accessor("asset_create", AssetCreate),
    Accessor("asset_issue", AssetIssue),
    Accessor("asset_publish_feed", AssetPublishFeed),
    Accessor("miner_create", MinerCreate),
    Accessor("miner_update", MinerUpdate),
    Accessor("update_global_parameters", MinerUpdateGlobalParameters),
    Accessor("proposal_create", ProposalCreate),
    Accessor("proposal_update", ProposalUpdate),
    Accessor("proposal_delete", ProposalDelete),
    Accessor("withdraw_permission_create", WithdrawPermissionCreate),
    Accessor("withdraw_permission_update", WithdrawPermissionUpdate),
    Accessor("withdraw_permission_claim", WithdrawPermissionClaim),
    Accessor("withdraw_permission_delete", WithdrawPermissionDelete),
    Accessor("vesting_balance_create", VestingBalanceCreate),
    Accessor("vesting_balance_withdraw", VestingBalanceWithdraw),
    Accessor("custom", Custom),
    Accessor("assert", Assert),
    Accessor("content_submit", ContentSubmit),
    Accessor("request_to_buy", RequestToBuy),
    Accessor("leave_rating_and_comment", LeaveRatingAndComment),
    Accessor("proof_of_custody", ProofOfCustody),
    Accessor("deliver_keys", DeliverKeys),
    Accessor("subscribe_to_author", Subscribe),
    Accessor("subscribe_by_author", SubscribeByAuthor),
    Accessor("automatic_renewal_of_subscription", AutomaticRenewalOfSubscription),
    Accessor("report_statistics", ReportStats),
    Accessor("set_publishing_manager", SetPublishingManager),
    Accessor("set_publishing_right", SetPublishingRight),
    Accessor("content_cancellation", ContentCancellation),
    Accessor("asset_fund_pools", AssetFundPools),
    Accessor("asset_reserve", AssetReserve),
    Accessor("asset_claim_fees", AssetClaimFees),
    Accessor("update_user_issued_asset", UpdateUserIssuedAsset),
    Accessor("update_monitored_asset", UpdateMonitoredAsset),
    Accessor("ready_to_publish", ReadyToPublish),
    Accessor("transfer", Transfer),
    Accessor("update_user_issued_asset_advanced", UpdateUserIssuedAssetAdvanced),
    Accessor("non_fungible_token_create", NonFungibleTokenCreateDefinition),
    Accessor("non_fungible_token_update", NonFungibleTokenUpdateDefinition),
    Accessor("non_fungible_token_issue", NonFungibleTokenIssue),
    Accessor("non_fungible_token_transfer", NonFungibleTokenTransfer),
    Accessor("non_fungible_token_data_update", NonFungibleTokenUpdateData)]

  // ----- no name and no type occurs twice -----

  function Number(t: OpType): (n: nat)
    ensures n < 44
  {
    match t
    case AccountCreate => 0 case AccountUpdate => 1
    case AssetCreate => 2 case AssetIssue => 3
    case AssetPublishFeed => 4 case MinerCreate => 5
    case MinerUpdate => 6 case MinerUpdateGlobalParameters => 7
    case ProposalCreate => 8 case ProposalUpdate => 9
    case ProposalDelete => 10 case WithdrawPermissionCreate => 11
    case WithdrawPermissionUpdate => 12 case WithdrawPermissionClaim => 13
    case WithdrawPermissionDelete => 14 case VestingBalanceCreate => 15
    case VestingBalanceWithdraw => 16 case Custom => 17
    case Assert => 18 case ContentSubmit => 19
    case RequestToBuy => 20 case LeaveRatingAndComment => 21
    case ProofOfCustody => 22 case DeliverKeys => 23
    case Subscribe => 24 case SubscribeByAuthor => 25
    case AutomaticRenewalOfSubscription => 26 case ReportStats => 27
    case SetPublishingManager => 28 case SetPublishingRight => 29
    case ContentCancellation => 30 case AssetFundPools => 31
    case AssetReserve => 32 case AssetClaimFees => 33
    case UpdateUserIssuedAsset => 34 case UpdateMonitoredAsset => 35
    case ReadyToPublish => 36 case Transfer => 37
    case UpdateUserIssuedAssetAdvanced => 38 case NonFungibleTokenCreateDefinition => 39
    case NonFungibleTokenUpdateDefinition => 40 case NonFungibleTokenIssue => 41
    case NonFungibleTokenTransfer => 42 case NonFungibleTokenUpdateData => 43
  }

  /** Tells the registered names apart by their length and a character or two. */
  function TypeNamed(s: string): OpType {
    match |s|
    case 6 => if s[0] == 'c' then Custom else Assert
    case 8 => Transfer
    case 11 => AssetIssue
    case 12 => if s[0] == 'a' then (AssetCreate) else
      if s[0] == 'm' then (if s[6] == 'c' then MinerCreate else MinerUpdate) else DeliverKeys
    case 13 => AssetReserve
    case 14 => if s[8] == 'c' then AccountCreate else if s[8] == 'u' then AccountUpdate else
      if s[8] == 's' then ContentSubmit else RequestToBuy
    case 15 => if s[9] == 'c' then ProposalCreate else if s[9] == 'u' then ProposalUpdate else ProposalDelete
    case 16 => if s[6] == 'o' then ProofOfCustody else if s[6] == 'f' then AssetFundPools else
      if s[6] == 'c' then AssetClaimFees else ReadyToPublish
    case 17 => ReportStats
    case 18 => AssetPublishFeed
    case 19 => if s[10] == 't' then Subscribe else SubscribeByAuthor
    case 20 => if s[0] == 's' then SetPublishingRight else ContentCancellation
    case 22 => if s[0] == 'v' then VestingBalanceCreate else if s[0] == 's' then SetPublishingManager else
      UpdateMonitoredAsset
    case 24 => if s[8] == 'l' then MinerUpdateGlobalParameters else
      if s[8] == 'b' then VestingBalanceWithdraw else if s[8] == 't' then LeaveRatingAndComment else
      if s[8] == 's' then UpdateUserIssuedAsset else NonFungibleTokenIssue
    case 25 => if s[19] == '_' then WithdrawPermissionClaim else
      if s[19] == 'c' then NonFungibleTokenCreateDefinition else NonFungibleTokenUpdateDefinition
    case 26 => if s[20] == 'c' then WithdrawPermissionCreate else
      if s[20] == 'u' then WithdrawPermissionUpdate else WithdrawPermissionDelete
    case 27 => NonFungibleTokenTransfer
    case 30 => NonFungibleTokenUpdateData
    case _ => if |s| != 33 then Custom else if s[0] == 'a' then AutomaticRenewalOfSubscription else
      UpdateUserIssuedAssetAdvanced
  }

  /** Entry `i` of the table is number `i`, and its name tells its type. */
  ghost predicate InOrder(i: nat) {
    && |OPERATION_TABLE| == 44
    && i < 44
    && Number(OPERATION_TABLE[i].tag) == i
    && TypeNamed(OPERATION_TABLE[i].name) == OPERATION_TABLE[i].tag
    && forall t :: Number(t) == i ==> t == OPERATION_TABLE[i].tag
  }

  lemma Entries0() ensures InOrder(0) && InOrder(1) {}
  lemma Entries2() ensures InOrder(2) && InOrder(3) {}
  lemma Entries4() ensures InOrder(4) && InOrder(5) {}
  lemma Entries6() ensures InOrder(6) && InOrder(7) {}
  lemma Entries8() ensures InOrder(8) && InOrder(9) {}
  lemma Entries10() ensures InOrder(10) && InOrder(11) {}
  lemma Entries12() ensures InOrder(12) && InOrder(13) {}
  lemma Entries14() ensures InOrder(14) && InOrder(15) {}
  lemma Entries16() ensures InOrder(16) && InOrder(17) {}
  lemma Entries18() ensures InOrder(18) && InOrder(19) {}
  lemma Entries20() ensures InOrder(20) && InOrder(21) {}
  lemma Entries22() ensures InOrder(22) && InOrder(23) {}
  lemma Entries24() ensures InOrder(24) && InOrder(25) {}
  lemma Entries26() ensures InOrder(26) && InOrder(27) {}
  lemma Entries28() ensures InOrder(28) && InOrder(29) {}
  lemma Entries30() ensures InOrder(30) && InOrder(31) {}
  lemma Entries32() ensures InOrder(32) && InOrder(33) {}
  lemma Entries34() ensures InOrder(34) && InOrder(35) {}
  lemma Entries36() ensures InOrder(36) && InOrder(37) {}
  lemma Entries38() ensures InOrder(38) && InOrder(39) {}
  lemma Entries40() ensures InOrder(40) && InOrder(41) {}
  lemma Entries42() ensures InOrder(42) && InOrder(43) {}

  lemma EntryInOrder(i: nat)
    requires i < 44
    ensures InOrder(i)
  {
    if i < 2 {
      Entries0();
    } else if i < 4 {
      Entries2();
    } else if i < 6 {
      Entries4();
    } else if i < 8 {
      Entries6();
    } else if i < 10 {
      Entries8();
    } else if i < 12 {
      Entries10();
    } else if i < 14 {
      Entries12();
    } else if i < 16 {
      Entries14();
    } else if i < 18 {
      Entries16();
    } else if i < 20 {
      Entries18();
    } else if i < 22 {
      Entries20();
    } else if i < 24 {
      Entries22();
    } else if i < 26 {
      Entries24();
    } else if i < 28 {
      Entries26();
    } else if i < 30 {
      Entries28();
    } else if i < 32 {
      Entries30();
    } else if i < 34 {
      Entries32();
    } else if i < 36 {
      Entries34();
    } else if i < 38 {
      Entries36();
    } else if i < 40 {
      Entries38();
    } else if i < 42 {
      Entries40();
    } else {
      Entries42();
    }
  }

  lemma TypeInTable(t: OpType)
    ensures |OPERATION_TABLE| == 44 && OPERATION_TABLE[Number(t)].tag == t
  {
    EntryInOrder(Number(t));
  }

  lemma OperationTableDistinct()
    ensures DistinctBy(OPERATION_TABLE, ByName<string, OpType>())
    ensures DistinctBy(OPERATION_TABLE, ByTag<string, OpType>())
  {
    EntryInOrder(0);
    forall i, j | 0 <= i < j < 44
      ensures OPERATION_TABLE[i].name != OPERATION_TABLE[j].name && OPERATION_TABLE[i].tag != OPERATION_TABLE[j].tag
    {
      EntryInOrder(i);
      EntryInOrder(j);
    }
  }

  // ----- reading an operation -----

  /** The attribute registered for a type. */
  function NameOf(t: OpType): string {
    TypeInTable(t);
    OPERATION_TABLE[Number(t)].name
  }

  /** Every operation is read by exactly one attribute, that of its type, which gives its content. */
  lemma OperationHasOneAccessor<X>(v: StaticVariant<OpType, X>)
    ensures Read(OPERATION_TABLE, NameOf(v.which), v) == Some(v.content)
    ensures forall n :: n != NameOf(v.which) ==> Read(OPERATION_TABLE, n, v).None?
  {
    TypeInTable(v.which);
    OperationTableDistinct();
    OneAccessorAnswers(OPERATION_TABLE, Number(v.which), v);
  }

  /** The attribute of a type answers for that type only. */
  lemma AttributeAnswersForType<X>(t: OpType, v: StaticVariant<OpType, X>)
    ensures Read(OPERATION_TABLE, NameOf(t), v) == DecodeStaticVariant(v, t)
  {
    TypeInTable(t);
    OperationTableDistinct();
    EntryReads(OPERATION_TABLE, Number(t), v);
  }

  // ----- the 44 attributes by name -----

  /** The attribute `name` gives the content of an operation of type `t`, and None for any other. */
  ghost predicate AttributeGives<X(!new)>(name: string, t: OpType) {
    forall v: StaticVariant<OpType, X> ::
      Read(OPERATION_TABLE, name, v) == if v.which == t then Some(v.content) else None
  }

  lemma EntryGives<X(!new)>(i: nat, name: string, t: OpType)
    requires |OPERATION_TABLE| == 44 && i < 44 && OPERATION_TABLE[i] == Accessor(name, t)
    ensures AttributeGives<X>(name, t)
  {
    OperationTableDistinct();
    EntryGivesContent<string, OpType, X>(OPERATION_TABLE, i);
  }

  lemma Attributes0<X(!new)>()
    ensures AttributeGives<X>("account_create", AccountCreate)
    ensures AttributeGives<X>("account_update", AccountUpdate)
    ensures AttributeGives<X>("asset_create", AssetCreate)
  {
    EntryGives<X>(0, "account_create", AccountCreate);
    EntryGives<X>(1, "account_update", AccountUpdate);
    EntryGives<X>(2, "asset_create", AssetCreate);
  }

  lemma Attributes3<X(!new)>()
    ensures AttributeGives<X>("asset_issue", AssetIssue)
    ensures AttributeGives<X>("asset_publish_feed", AssetPublishFeed)
    ensures AttributeGives<X>("miner_create", MinerCreate)
  {
    EntryGives<X>(3, "asset_issue", AssetIssue);
    EntryGives<X>(4, "asset_publish_feed", AssetPublishFeed);
    EntryGives<X>(5, "miner_create", MinerCreate);
  }

  lemma Attributes6<X(!new)>()
    ensures AttributeGives<X>("miner_update", MinerUpdate)
    ensures AttributeGives<X>("update_global_parameters", MinerUpdateGlobalParameters)
    ensures AttributeGives<X>("proposal_create", ProposalCreate)
  {
    EntryGives<X>(6, "miner_update", MinerUpdate);
    EntryGives<X>(7, "update_global_parameters", MinerUpdateGlobalParameters);
    EntryGives<X>(8, "proposal_create", ProposalCreate);
  }

  lemma Attributes9<X(!new)>()
    ensures AttributeGives<X>("proposal_update", ProposalUpdate)
    ensures AttributeGives<X>("proposal_delete", ProposalDelete)
    ensures AttributeGives<X>("withdraw_permission_create", WithdrawPermissionCreate)
  {
    EntryGives<X>(9, "proposal_update", ProposalUpdate);
    EntryGives<X>(10, "proposal_delete", ProposalDelete);
    EntryGives<X>(11, "withdraw_permission_create", WithdrawPermissionCreate);
  }

  lemma Attributes12<X(!new)>()
    ensures AttributeGives<X>("withdraw_permission_update", WithdrawPermissionUpdate)
    ensures AttributeGives<X>("withdraw_permission_claim", WithdrawPermissionClaim)
    ensures AttributeGives<X>("withdraw_permission_delete", WithdrawPermissionDelete)
  {
    EntryGives<X>(12, "withdraw_permission_update", WithdrawPermissionUpdate);
    EntryGives<X>(13, "withdraw_permission_claim", WithdrawPermissionClaim);
    EntryGives<X>(14, "withdraw_permission_delete", WithdrawPermissionDelete);
  }

  lemma Attributes15<X(!new)>()
    ensures AttributeGives<X>("vesting_balance_create", VestingBalanceCreate)
    ensures AttributeGives<X>("vesting_balance_withdraw", VestingBalanceWithdraw)
    ensures AttributeGives<X>("custom", Custom)
  {
    EntryGives<X>(15, "vesting_balance_create", VestingBalanceCreate);
    EntryGives<X>(16, "vesting_balance_withdraw", VestingBalanceWithdraw);
    EntryGives<X>(17, "custom", Custom);
  }

  lemma Attributes18<X(!new)>()
    ensures AttributeGives<X>("assert", Assert)
    ensures AttributeGives<X>("content_submit", ContentSubmit)
    ensures AttributeGives<X>("request_to_buy", RequestToBuy)
  {
    EntryGives<X>(18, "assert", Assert);
    EntryGives<X>(19, "content_submit", ContentSubmit);
    EntryGives<X>(20, "request_to_buy", RequestToBuy);
  }

  lemma Attributes21<X(!new)>()
    ensures AttributeGives<X>("leave_rating_and_comment", LeaveRatingAndComment)
    ensures AttributeGives<X>("proof_of_custody", ProofOfCustody)
    ensures AttributeGives<X>("deliver_keys", DeliverKeys)
  {
    EntryGives<X>(21, "leave_rating_and_comment", LeaveRatingAndComment);
    EntryGives<X>(22, "proof_of_custody", ProofOfCustody);
    EntryGives<X>(23, "deliver_keys", DeliverKeys);
  }

  lemma Attributes24<X(!new)>()
    ensures AttributeGives<X>("subscribe_to_author", Subscribe)
    ensures AttributeGives<X>("subscribe_by_author", SubscribeByAuthor)
    ensures AttributeGives<X>("automatic_renewal_of_subscription", AutomaticRenewalOfSubscription)
  {
    EntryGives<X>(24, "subscribe_to_author", Subscribe);
    EntryGives<X>(25, "subscribe_by_author", SubscribeByAuthor);
    EntryGives<X>(26, "automatic_renewal_of_subscription", AutomaticRenewalOfSubscription);
  }

  lemma Attributes27<X(!new)>()
    ensures AttributeGives<X>("report_statistics", ReportStats)
    ensures AttributeGives<X>("set_publishing_manager", SetPublishingManager)
    ensures AttributeGives<X>("set_publishing_right", SetPublishingRight)
  {
    EntryGives<X>(27, "report_statistics", ReportStats);
    EntryGives<X>(28, "set_publishing_manager", SetPublishingManager);
    EntryGives<X>(29, "set_publishing_right", SetPublishingRight);
  }

  lemma Attributes30<X(!new)>()
    ensures AttributeGives<X>("content_cancellation", ContentCancellation)
    ensures AttributeGives<X>("asset_fund_pools", AssetFundPools)
    ensures AttributeGives<X>("asset_reserve", AssetReserve)
  {
    EntryGives<X>(30, "content_cancellation", ContentCancellation);
    EntryGives<X>(31, "asset_fund_pools", AssetFundPools);
    EntryGives<X>(32, "asset_reserve", AssetReserve);
  }

  lemma Attributes33<X(!new)>()
    ensures AttributeGives<X>("asset_claim_fees", AssetClaimFees)
    ensures AttributeGives<X>("update_user_issued_asset", UpdateUserIssuedAsset)
    ensures AttributeGives<X>("update_monitored_asset", UpdateMonitoredAsset)
  {
    EntryGives<X>(33, "asset_claim_fees", AssetClaimFees);
    EntryGives<X>(34, "update_user_issued_asset", UpdateUserIssuedAsset);
    EntryGives<X>(35, "update_monitored_asset", UpdateMonitoredAsset);
  }

  lemma Attributes36<X(!new)>()
    ensures AttributeGives<X>("ready_to_publish", ReadyToPublish)
    ensures AttributeGives<X>("transfer", Transfer)
    ensures AttributeGives<X>("update_user_issued_asset_advanced", UpdateUserIssuedAssetAdvanced)
  {
    EntryGives<X>(36, "ready_to_publish", ReadyToPublish);
    EntryGives<X>(37, "transfer", Transfer);
    EntryGives<X>(38, "update_user_issued_asset_advanced", UpdateUserIssuedAssetAdvanced);
  }

  lemma Attributes39<X(!new)>()
    ensures AttributeGives<X>("non_fungible_token_create", NonFungibleTokenCreateDefinition)
    ensures AttributeGives<X>("non_fungible_token_update", NonFungibleTokenUpdateDefinition)
    ensures AttributeGives<X>("non_fungible_token_issue", NonFungibleTokenIssue)
  {
    EntryGives<X>(39, "non_fungible_token_create", NonFungibleTokenCreateDefinition);
    EntryGives<X>(40, "non_fungible_token_update", NonFungibleTokenUpdateDefinition);
    EntryGives<X>(41, "non_fungible_token_issue", NonFungibleTokenIssue);
  }

  lemma Attributes42<X(!new)>()
    ensures AttributeGives<X>("non_fungible_token_transfer", NonFungibleTokenTransfer)
    ensures AttributeGives<X>("non_fungible_token_data_update", NonFungibleTokenUpdateData)
  {
    EntryGives<X>(42, "non_fungible_token_transfer", NonFungibleTokenTransfer);
    EntryGives<X>(43, "non_fungible_token_data_update", NonFungibleTokenUpdateData);
  }

  lemma ProposalAttribute()
    ensures NameOf(ProposalCreate) == "proposal_create"
  {
    TypeInTable(ProposalCreate);
  }
}
