/** The salesperson side of the store: salespersons, their products, sales, agent commissions and invitations. */
module SalesModels {
  import opened Outcomes

  const StatusActive: string := "active"
  const Pending: string := "pending"
  const Accepted: string := "accepted"
  const Expired: string := "expired"

  /** Level of a salesperson without a parent. */
  const RootLevel: int := 0
  /** Column default of ParentCommissionRate. */
  const DefaultParentCommissionRate: real := 0.1

  datatype Salesperson = Salesperson(
    username: string,
    password: string,       // the stored bcrypt hash
    name: string,
    phone: string,
    email: string,
    status: string,
    avatar: string,
    commissionRate: real,
    totalSales: real,
    totalCommission: real,
    creatorId: nat,
    parentId: Option<nat>,
    level: int,
    childrenCount: int,
    agentCode: string,
    parentCommissionRate: real,
    lastLoginAt: Option<int>)

  /** Which software/key-type pairs a salesperson may mint keys for. KeyGenLimit 0 means unlimited. */
  datatype SalespersonProduct = SalespersonProduct(
    salespersonId: nat,
    softwareId: nat,
    keyTypeId: nat,
    commissionRate: real,
    keyGenLimit: int,
    keysGenerated: int,
    isActive: bool)

  datatype SalespersonSale = SalespersonSale(
    salespersonId: nat,
    keyId: nat,
    softwareId: nat,
    keyTypeId: nat,
    customerName: string,
    customerPhone: string,
    customerEmail: string,
    saleAmount: real,
    commissionRate: real,
    commission: real,
    status: string,
    notes: string)

  /** One ancestor's share of a sale. */
  datatype AgentCommission = AgentCommission(
    saleId: nat,
    salespersonId: nat,
    agentId: nat,
    agentLevel: int,
    originalAmount: real,
    commissionRate: real,
    commissionAmount: real,
    status: string,
    settlementId: Option<nat>)

  datatype AgentInvitation = AgentInvitation(
    inviterId: nat,
    inviteeId: Option<nat>,
    inviteCode: string,
    email: string,
    phone: string,
    status: string,
    acceptedAt: Option<int>,
    expiredAt: int)
}
