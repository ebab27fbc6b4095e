/** Invoices and payments under the two billing controllers. Each request is one step: the
    controller's hook, then the row write. */
module Billing {
  import opened Prelude

  datatype InvoiceStatus = Draft | Pending | Sent | Paid | Overdue | Void

  datatype PaymentStatus = Waiting | Completed | Failed | Refunded

  datatype CustomerStatus = Active | Suspended | Closed | OtherStatus

  /** What the request's customer_id leads to. */
  datatype CustomerLookup = NotGiven | Unknown | Known(status: CustomerStatus)

  datatype Invoice = Invoice(status: InvoiceStatus, total: int, live: bool)

  datatype Payment = Payment(invoice: nat, amount: int, status: PaymentStatus)

  /** What the audit log says when a payment marks its invoice paid. */
  datatype AutoPaid = AutoPaid(invoice: nat, payment: nat, totalPaid: int)

  /** The tables. No invoice or payment row is ever removed, so a row's place is its id. */
  datatype Books = Books(invoices: seq<Invoice>, payments: seq<Payment>, audit: seq<AutoPaid>)

  /** `role` is the signed-in user's role, `duplicate` what the five-minute duplicate query
      finds, and `written` whether the database takes the row write that follows the hook. An
      update writes the row `id` of its path; its hook reads the row `named` by the `id` of the
      input, which nothing ties to the path. */
  datatype Request =
    | CreateInvoice(role: Option<string>, customer: CustomerLookup, total: int, written: bool)
    | UpdateInvoice(id: nat, named: Option<nat>, role: Option<string>, status: Option<InvoiceStatus>,
                    newTotal: Option<int>, written: bool)
    | DeleteInvoice(id: nat, written: bool)
    | CreatePayment(role: Option<string>, invoice: Option<nat>, amount: Option<int>, duplicate: bool,
                    written: bool)
    | UpdatePayment(id: nat, named: Option<nat>, role: Option<string>, newStatus: Option<PaymentStatus>, written: bool)

  datatype Refusal =
    | Auth
    | Internal
    | NotFound
    | NotWritten
    | Validation(code: string)

  type Outcome = Result<(), Refusal>

  // ----- Sums the hooks ask the database for --------------------------------

  function Share(p: Payment, invoice: nat, kinds: set<PaymentStatus>): int {
    if p.invoice == invoice && p.status in kinds then p.amount else 0
  }

  /** Amounts of the invoice's payments in one of `kinds`, leaving out the ids in `except`. */
  function Sum(ps: seq<Payment>, invoice: nat, kinds: set<PaymentStatus>, except: set<nat>): int {
    if ps == [] then 0
    else
      var n := |ps| - 1;
      Sum(ps[..n], invoice, kinds, except) + if n in except then 0 else Share(ps[n], invoice, kinds)
  }

  const COUNTED: set<PaymentStatus> := {Waiting, Completed}
  const DONE: set<PaymentStatus> := {Completed}

  /** Money promised to an invoice: payments under way and payments done. */
  function Committed(b: Books, i: nat): int {
    Sum(b.payments, i, COUNTED, {})
  }

  function Received(b: Books, i: nat): int {
    Sum(b.payments, i, DONE, {})
  }

  // ----- The hooks ----------------------------------------------------------

  predicate Allowed(from: InvoiceStatus, to: InvoiceStatus) {
    (from, to) in {(Draft, Pending), (Pending, Sent), (Sent, Paid), (Draft, Void), (Sent, Overdue)}
  }

  function InvoiceHook(b: Books, named: Option<nat>, role: Option<string>, status: Option<InvoiceStatus>): Outcome {
    if named.None? || named.value >= |b.invoices| then Err(Internal)
    else
      var current := b.invoices[named.value].status;
      if current == Paid || current == Void then Err(Validation("immutable_status"))
      else if status.None? then Ok(())
      else if !Allowed(current, status.value) then Err(Validation("invalid_transition"))
      else if status == Some(Sent) && role != Some("finance") && role != Some("admin") then
        Err(Validation("insufficient_role"))
      else if status == Some(Void) && role != Some("admin") then Err(Validation("insufficient_role"))
      else Ok(())
  }

  function CustomerCheck(role: Option<string>, customer: CustomerLookup): Outcome {
    if role.None? then Err(Auth)
    else match customer
      case NotGiven => Err(Validation("required"))
      case Unknown => Err(Validation("not_found"))
      case Known(Active) => Ok(())
      case Known(OtherStatus) => Err(Internal)
      case Known(_) => Err(Validation("inactive_customer"))
  }

  function PaymentCheck(b: Books, role: Option<string>, invoice: Option<nat>, amount: Option<int>, duplicate: bool)
    : Outcome
  {
    if role.None? then Err(Auth)
    else if invoice.None? || amount.None? then Err(Validation("required"))
    else if invoice.value >= |b.invoices| || !b.invoices[invoice.value].live then Err(Validation("not_found"))
    else
      var target := b.invoices[invoice.value];
      if target.status != Sent && target.status != Overdue then Err(Validation("invalid_invoice_status"))
      else if amount.value > target.total - Committed(b, invoice.value) then Err(Validation("exceeds_balance"))
      else if duplicate then Err(Validation("duplicate_payment"))
      else Ok(())
  }

  /** The payment hook refuses, or lets the write go on after possibly marking the invoice paid. */
  function PaymentHook(b: Books, named: Option<nat>, role: Option<string>, status: Option<PaymentStatus>)
    : (Books, Outcome)
  {
    if named.None? || named.value >= |b.payments| then (b, Err(Internal))
    else
      var p := b.payments[named.value];
      if p.status == Completed || p.status == Refunded then (b, Err(Validation("immutable_status")))
      else if status == Some(Refunded) && role != Some("admin") then (b, Err(Validation("insufficient_role")))
      else if status != Some(Completed) then (b, Ok(()))
      else if p.invoice >= |b.invoices| then (b, Err(Internal))
      else
        var paid := Sum(b.payments, p.invoice, DONE, {named.value}) + p.amount;
        if paid >= b.invoices[p.invoice].total then (MarkPaid(b, p.invoice, named.value, paid), Ok(()))
        else (b, Ok(()))
  }

  /** UPDATE invoices SET status = 'paid' WHERE id = ..., whatever the status was. */
  function MarkPaid(b: Books, i: nat, payment: nat, paid: int): Books
    requires i < |b.invoices|
  {
    b.(invoices := b.invoices[i := b.invoices[i].(status := Paid)],
       audit := b.audit + [AutoPaid(i, payment, paid)])
  }

  // ----- Requests -----------------------------------------------------------

  function OrElse<T>(o: Option<T>, t: T): T {
    if o.Some? then o.value else t
  }

  function Step(b: Books, r: Request): (Books, Outcome) {
    match r
    case CreateInvoice(role, customer, total, written) =>
      var checked := CustomerCheck(role, customer);
      if checked.Err? then (b, checked)
      else if !written then (b, Err(NotWritten))
      else (b.(invoices := b.invoices + [Invoice(Draft, total, true)]), Ok(()))
    case UpdateInvoice(id, named, role, status, newTotal, written) =>
      var checked := InvoiceHook(b, named, role, status);
      if checked.Err? then (b, checked)
      else if id >= |b.invoices| || !b.invoices[id].live then (b, Err(NotFound))
      else if !written then (b, Err(NotWritten))
      else
        var was := b.invoices[id];
        var row := Invoice(OrElse(status, was.status), OrElse(newTotal, was.total), true);
        (b.(invoices := b.invoices[id := row]), Ok(()))
    case DeleteInvoice(id, written) =>
      if id >= |b.invoices| || !b.invoices[id].live then (b, Err(NotFound))
      else if !written then (b, Err(NotWritten))
      else (b.(invoices := b.invoices[id := b.invoices[id].(live := false)]), Ok(()))
    case CreatePayment(role, invoice, amount, duplicate, written) =>
      var checked := PaymentCheck(b, role, invoice, amount, duplicate);
      if checked.Err? then (b, checked)
      else if !written then (b, Err(NotWritten))
      else (b.(payments := b.payments + [Payment(invoice.value, amount.value, Waiting)]), Ok(()))
    case UpdatePayment(id, named, role, newStatus, written) =>
      var (hooked, checked) := PaymentHook(b, named, role, newStatus);
      if checked.Err? then (hooked, checked)
      else if id >= |b.payments| then (hooked, Err(NotFound))
      else if !written then (hooked, Err(NotWritten))
      else
        var was := b.payments[id];
        (hooked.(payments := b.payments[id := was.(status := OrElse(newStatus, was.status))]), Ok(()))
  }

  function Run(b: Books, rs: seq<Request>): Books {
    if rs == [] then b else Step(Run(b, rs[..|rs| - 1]), rs[|rs| - 1]).0
  }

  const EMPTY: Books := Books([], [], [])

  // ----- The controllers as they work ---------------------------------------

  class Ledger {
    var invoices: seq<Invoice>
    var payments: seq<Payment>
    var audit: seq<AutoPaid>

    constructor ()
      ensures Now() == EMPTY
    {
      invoices, payments, audit := [], [], [];
    }

    function Now(): Books
      reads this
    {
      Books(invoices, payments, audit)
    }

    method AddInvoice(role: Option<string>, customer: CustomerLookup, total: int, written: bool) returns (res: Outcome)
      modifies this
      ensures (Now(), res) == Step(old(Now()), CreateInvoice(role, customer, total, written))
    {
      if role.None? {
        return Err(Auth);
      }
      match customer {
        case NotGiven => return Err(Validation("required"));
        case Unknown => return Err(Validation("not_found"));
        case Known(Suspended) => return Err(Validation("inactive_customer"));
        case Known(Closed) => return Err(Validation("inactive_customer"));
        case Known(OtherStatus) => return Err(Internal);
        case Known(Active) =>
      }
      if !written {
        return Err(NotWritten);
      }
      invoices := invoices + [Invoice(Draft, total, true)];
      return Ok(());
    }

    /** Before an invoice is changed: reads the invoice the input names. */
    method EnforceInvoiceWorkflow(named: Option<nat>, role: Option<string>, status: Option<InvoiceStatus>)
      returns (res: Outcome)
      ensures res == InvoiceHook(Now(), named, role, status)
    {
      if named.None? || named.value >= |invoices| {
        return Err(Internal);
      }
      var current := invoices[named.value].status;
      if current == Paid || current == Void {
        return Err(Validation("immutable_status"));
      }
      if status.None? {
        return Ok(());
      }
      var transitions := [(Draft, Pending), (Pending, Sent), (Sent, Paid), (Draft, Void), (Sent, Overdue)];
      assert forall t :: t in transitions <==> Allowed(t.0, t.1);
      if (current, status.value) !in transitions {
        return Err(Validation("invalid_transition"));
      }
      var userRole := OrElse(role, "unknown");
      if status.value == Sent && userRole != "finance" && userRole != "admin" {
        return Err(Validation("insufficient_role"));
      }
      if status.value == Void && userRole != "admin" {
        return Err(Validation("insufficient_role"));
      }
      return Ok(());
    }

    method UpdateInvoiceRow(id: nat, named: Option<nat>, role: Option<string>, status: Option<InvoiceStatus>,
                            newTotal: Option<int>, written: bool)
      returns (res: Outcome)
      modifies this
      ensures (Now(), res) == Step(old(Now()), UpdateInvoice(id, named, role, status, newTotal, written))
    {
      res := EnforceInvoiceWorkflow(named, role, status);
      if res.Err? {
        return;
      }
      if id >= |invoices| || !invoices[id].live {
        return Err(NotFound);
      }
      if !written {
        return Err(NotWritten);
      }
      var row := invoices[id];
      if status.Some? {
        row := row.(status := status.value);
      }
      if newTotal.Some? {
        row := row.(total := newTotal.value);
      }
      invoices := invoices[id := row];
    }

    method AddPayment(role: Option<string>, invoice: Option<nat>, amount: Option<int>, duplicate: bool, written: bool)
      returns (res: Outcome)
      modifies this
      ensures (Now(), res) == Step(old(Now()), CreatePayment(role, invoice, amount, duplicate, written))
    {
      if role.None? {
        return Err(Auth);
      }
      if invoice.None? || amount.None? {
        return Err(Validation("required"));
      }
      var i := invoice.value;
      if i >= |invoices| || !invoices[i].live {
        return Err(Validation("not_found"));
      }
      if invoices[i].status != Sent && invoices[i].status != Overdue {
        return Err(Validation("invalid_invoice_status"));
      }
      var remaining := invoices[i].total - Sum(payments, i, {Waiting, Completed}, {});
      if amount.value > remaining {
        return Err(Validation("exceeds_balance"));
      }
      if duplicate {
        return Err(Validation("duplicate_payment"));
      }
      if !written {
        return Err(NotWritten);
      }
      payments := payments + [Payment(i, amount.value, Waiting)];
      return Ok(());
    }

    /** Before a payment is changed: reads the payment the input names, whose invoice may already
        be marked paid here. */
    method EnforcePaymentRules(named: Option<nat>, role: Option<string>, status: Option<PaymentStatus>)
      returns (res: Outcome)
      modifies this
      ensures (Now(), res) == PaymentHook(old(Now()), named, role, status)
    {
      if named.None? || named.value >= |payments| {
        return Err(Internal);
      }
      var p := payments[named.value];
      if p.status == Completed || p.status == Refunded {
        return Err(Validation("immutable_status"));
      }
      if status.None? {
        return Ok(());
      }
      if status.value == Refunded && OrElse(role, "unknown") != "admin" {
        return Err(Validation("insufficient_role"));
      }
      if status.value == Completed {
        if p.invoice >= |invoices| {
          return Err(Internal);
        }
        var alreadyPaid := Sum(payments, p.invoice, {Completed}, {named.value});
        if alreadyPaid + p.amount >= invoices[p.invoice].total {
          invoices := invoices[p.invoice := invoices[p.invoice].(status := Paid)];
          audit := audit + [AutoPaid(p.invoice, named.value, alreadyPaid + p.amount)];
        }
      }
      return Ok(());
    }

    method UpdatePaymentRow(id: nat, named: Option<nat>, role: Option<string>, status: Option<PaymentStatus>,
                            written: bool)
      returns (res: Outcome)
      modifies this
      ensures (Now(), res) == Step(old(Now()), UpdatePayment(id, named, role, status, written))
    {
      res := EnforcePaymentRules(named, role, status);
      if res.Err? {
        return;
      }
      if id >= |payments| {
        return Err(NotFound);
      }
      if !written {
        return Err(NotWritten);
      }
      payments := payments[id := payments[id].(status := OrElse(status, payments[id].status))];
    }
  }

  // ----- Sums under change --------------------------------------------------

  lemma {:induction false} SumAppend(ps: seq<Payment>, p: Payment, i: nat, kinds: set<PaymentStatus>)
    ensures Sum(ps + [p], i, kinds, {}) == Sum(ps, i, kinds, {}) + Share(p, i, kinds)
  {
    assert (ps + [p])[..|ps|] == ps;
  }

  lemma {:induction false} SumChange(ps: seq<Payment>, k: nat, p: Payment, i: nat, kinds: set<PaymentStatus>)
    requires k < |ps|
    ensures Sum(ps[k := p], i, kinds, {}) == Sum(ps, i, kinds, {}) - Share(ps[k], i, kinds) + Share(p, i, kinds)
  {
    var n := |ps| - 1;
    if k < n {
      assert ps[k := p][..n] == ps[..n][k := p];
      SumChange(ps[..n], k, p, i, kinds);
    } else {
      assert ps[k := p][..n] == ps[..n];
    }
  }

  lemma {:induction false} SumExcept(ps: seq<Payment>, i: nat, kinds: set<PaymentStatus>, k: nat)
    requires k < |ps| ==> Share(ps[k], i, kinds) == 0
    ensures Sum(ps, i, kinds, {k}) == Sum(ps, i, kinds, {})
  {
    if ps != [] {
      SumExcept(ps[..|ps| - 1], i, kinds, k);
    }
  }

  lemma {:induction false} ReceivedIsCommitted(ps: seq<Payment>, i: nat)
    requires forall p :: p in ps ==> p.amount >= 0
    ensures Sum(ps, i, DONE, {}) <= Sum(ps, i, COUNTED, {})
  {
    if ps != [] {
      ReceivedIsCommitted(ps[..|ps| - 1], i);
      assert ps[|ps| - 1] in ps;
    }
  }

  lemma {:induction false} NoPaymentsNoSum(ps: seq<Payment>, i: nat, kinds: set<PaymentStatus>)
    requires forall p :: p in ps ==> p.invoice != i
    ensures Sum(ps, i, kinds, {}) == 0
  {
    if ps != [] {
      NoPaymentsNoSum(ps[..|ps| - 1], i, kinds);
      assert ps[|ps| - 1] in ps;
    }
  }

  // ----- Which row the hook reads -------------------------------------------

  predicate Accepted(b: Books, r: Request) {
    Step(b, r).1.Ok?
  }

  /** An update that passes its hook named the row it writes. */
  predicate Told(b: Books, r: Request) {
    match r
    case UpdateInvoice(id, named, role, status, _, _) => InvoiceHook(b, named, role, status).Ok? ==> named == Some(id)
    case UpdatePayment(id, named, role, newStatus, _) =>
      PaymentHook(b, named, role, newStatus).1.Ok? ==> named == Some(id)
    case _ => true
  }

  ghost predicate EachTold(b: Books, rs: seq<Request>) {
    forall k :: 0 <= k < |rs| ==> Told(Run(b, rs[..k]), rs[k])
  }

  lemma {:induction false} RunOneMore(b: Books, rs: seq<Request>, k: nat)
    requires k < |rs|
    ensures Run(b, rs[..k + 1]) == Step(Run(b, rs[..k]), rs[k]).0
  {
    assert rs[..k + 1][..k] == rs[..k];
  }

  /** As the resources are declared, `id` is not among the input fields of an update. */
  predicate Unnamed(r: Request) {
    r.UpdateInvoice? || r.UpdatePayment? ==> r.named == None
  }

  lemma UnnamedIsRefused(b: Books, r: Request)
    requires Unnamed(r) && (r.UpdateInvoice? || r.UpdatePayment?)
    ensures Step(b, r) == (b, Err(Internal))
  {
  }

  /** Main result, the controllers as shipped: every update is refused, so no invoice leaves
      draft and no payment is ever taken. */
  lemma {:induction false} ShippedRun(rs: seq<Request>)
    requires forall r :: r in rs ==> Unnamed(r)
    ensures var b := Run(EMPTY, rs);
            b.payments == [] && b.audit == [] && forall i :: 0 <= i < |b.invoices| ==> b.invoices[i].status == Draft
  {
    if rs != [] {
      var n := |rs| - 1;
      ShippedRun(rs[..n]);
      assert Unnamed(rs[n]);
      if rs[n].UpdateInvoice? || rs[n].UpdatePayment? {
        UnnamedIsRefused(Run(EMPTY, rs[..n]), rs[n]);
      }
    }
  }

  // ----- Who may do what -----------------------------------------------------

  /** The moves of an invoice, and the roles that may make them. */
  predicate MayMove(from: InvoiceStatus, to: InvoiceStatus, role: Option<string>) {
    || (from == Draft && to == Pending)
    || (from == Pending && to == Sent && role in {Some("finance"), Some("admin")})
    || (from == Sent && to == Paid)
    || (from == Draft && to == Void && role == Some("admin"))
    || (from == Sent && to == Overdue)
  }

  /** The invoice hook lets pass exactly edits of open invoices that set no status or make a move
      of the table in a role that may; and says why it refuses. */
  lemma InvoiceHookExactly(b: Books, named: Option<nat>, role: Option<string>, status: Option<InvoiceStatus>)
    ensures var known := named.Some? && named.value < |b.invoices|;
            var out := InvoiceHook(b, named, role, status);
            && (!known ==> out == Err(Internal))
            && (known ==>
                  var current := b.invoices[named.value].status;
                  && (out.Ok? <==> current !in {Paid, Void} && (status.Some? ==> MayMove(current, status.value, role)))
                  && (current in {Paid, Void} ==> out == Err(Validation("immutable_status")))
                  && (current !in {Paid, Void} && out.Err? ==>
                        out == Err(Validation(if (current, status.value) in {(Pending, Sent), (Draft, Void)}
                                              then "insufficient_role" else "invalid_transition"))))
  {
  }

  /** One accepted update sends an invoice only for finance or an admin, and voids it only for an
      admin. */
  lemma StepGuards(b: Books, r: Request)
    requires Accepted(b, r) && r.UpdateInvoice?
    ensures r.status == Some(Sent) ==> r.role in {Some("finance"), Some("admin")}
    ensures r.status == Some(Void) ==> r.role == Some("admin")
  {
  }

  /** The request changes invoice `i` to this status. */
  predicate Moves(r: Request, i: nat, to: InvoiceStatus) {
    r.UpdateInvoice? && r.id == i && r.status == Some(to)
  }

  /** A status that becomes sent or void was set by an update, in a role that may. */
  ghost predicate Guarded(b: Books, r: Request, c: Books, i: nat)
    requires i < |b.invoices| && i < |c.invoices|
  {
    && (b.invoices[i].status != Sent && c.invoices[i].status == Sent ==>
          Moves(r, i, Sent) && r.role in {Some("finance"), Some("admin")})
    && (b.invoices[i].status != Void && c.invoices[i].status == Void ==> Moves(r, i, Void) && r.role == Some("admin"))
  }

  lemma StepGuarded(b: Books, r: Request, i: nat)
    requires i < |b.invoices|
    ensures i < |Step(b, r).0.invoices| && Guarded(b, r, Step(b, r).0, i)
  {
    if Accepted(b, r) && r.UpdateInvoice? {
      StepGuards(b, r);
    }
  }

  /** Main result, every run: whenever an invoice becomes sent or void, the request that did it
      was an update of it, by finance or an admin, or by an admin. */
  lemma RunGuards(rs: seq<Request>, k: nat, i: nat)
    requires k < |rs| && i < |Run(EMPTY, rs[..k]).invoices|
    ensures i < |Run(EMPTY, rs[..k + 1]).invoices|
    ensures Guarded(Run(EMPTY, rs[..k]), rs[k], Run(EMPTY, rs[..k + 1]), i)
  {
    RunOneMore(EMPTY, rs, k);
    StepGuarded(Run(EMPTY, rs[..k]), rs[k], i);
  }

  /** The payment hook lets pass exactly payments not yet settled, refunds by an admin, and
      completions whose invoice exists; and says why it refuses. */
  lemma PaymentHookExactly(b: Books, named: Option<nat>, role: Option<string>, status: Option<PaymentStatus>)
    ensures var known := named.Some? && named.value < |b.payments|;
            var out := PaymentHook(b, named, role, status).1;
            && (!known ==> out == Err(Internal))
            && (known ==>
                  var p := b.payments[named.value];
                  && (out.Ok? <==> p.status in {Waiting, Failed} && (status == Some(Refunded) ==> role == Some("admin"))
                                   && (status == Some(Completed) ==> p.invoice < |b.invoices|))
                  && (p.status in {Completed, Refunded} ==> out == Err(Validation("immutable_status")))
                  && (p.status in {Waiting, Failed} && status == Some(Refunded) && role != Some("admin") ==>
                        out == Err(Validation("insufficient_role")))
                  && (p.status in {Waiting, Failed} && status == Some(Completed) && p.invoice >= |b.invoices| ==>
                        out == Err(Internal)))
  {
  }

  /** It touches the books only when a completion brings the completed payments of the invoice to
      its total: then that invoice is paid, and the audit log says by which payment and with how
      much. */
  lemma PaymentHookMarks(b: Books, named: Option<nat>, role: Option<string>, status: Option<PaymentStatus>)
    ensures var c := PaymentHook(b, named, role, status).0;
            if && named.Some? && named.value < |b.payments| && status == Some(Completed)
               && b.payments[named.value].status in {Waiting, Failed} && b.payments[named.value].invoice < |b.invoices|
               && PaidWith(b, named.value) >= b.invoices[b.payments[named.value].invoice].total
            then
              var i := b.payments[named.value].invoice;
              && c.payments == b.payments && |c.invoices| == |b.invoices|
              && c.invoices[i] == Invoice(Paid, b.invoices[i].total, b.invoices[i].live)
              && (forall j :: 0 <= j < |b.invoices| && j != i ==> c.invoices[j] == b.invoices[j])
              && c.audit == b.audit + [AutoPaid(i, named.value, PaidWith(b, named.value))]
            else c == b
  {
  }

  /** A payment is taken exactly from a signed-in user, for an amount the live, sent or overdue
      invoice still has room for, and not twice; then it waits. */
  lemma CreatePaymentExactly(b: Books, r: Request)
    requires r.CreatePayment?
    ensures Accepted(b, r) <==>
            && r.role.Some? && r.invoice.Some? && r.amount.Some? && !r.duplicate && r.written
            && r.invoice.value < |b.invoices| && b.invoices[r.invoice.value].live
            && b.invoices[r.invoice.value].status in {Sent, Overdue}
            && Committed(b, r.invoice.value) + r.amount.value <= b.invoices[r.invoice.value].total
    ensures var c := Step(b, r).0;
            if Accepted(b, r)
            then c == Books(b.invoices, b.payments + [Payment(r.invoice.value, r.amount.value, Waiting)], b.audit)
            else c == b
  {
  }

  /** An invoice is drafted exactly by a signed-in user for an active customer. */
  lemma CreateInvoiceExactly(b: Books, r: Request)
    requires r.CreateInvoice?
    ensures Accepted(b, r) <==> r.role.Some? && r.customer == Known(Active) && r.written
    ensures var c := Step(b, r).0;
            if Accepted(b, r) then c == Books(b.invoices + [Invoice(Draft, r.total, true)], b.payments, b.audit)
            else c == b
  {
  }

  /** Why an invoice is not drafted. */
  lemma InvoiceRefusals(b: Books, r: Request)
    requires r.CreateInvoice?
    ensures var out := Step(b, r).1;
            && (out == Err(Auth) <==> r.role.None?)
            && (out == Err(Validation("required")) <==> r.role.Some? && r.customer.NotGiven?)
            && (out == Err(Validation("not_found")) <==> r.role.Some? && r.customer.Unknown?)
            && (out == Err(Internal) <==> r.role.Some? && r.customer == Known(OtherStatus))
            && (out == Err(Validation("inactive_customer")) <==>
                  r.role.Some? && r.customer.Known? && r.customer.status !in {Active, OtherStatus})
            && (out == Err(NotWritten) <==> r.role.Some? && r.customer == Known(Active) && !r.written)
  {
  }

  /** Why a payment is not taken: the first of these that is the case. */
  lemma PaymentRefusals(b: Books, r: Request)
    requires r.CreatePayment?
    ensures var out := Step(b, r).1;
            var given := r.role.Some? && r.invoice.Some? && r.amount.Some?;
            && (out == Err(Auth) <==> r.role.None?)
            && (out == Err(Validation("required")) <==> r.role.Some? && !given)
            && (out == Err(Validation("not_found")) <==> given && !HasInvoice(b, r.invoice.value))
            && (given && HasInvoice(b, r.invoice.value) ==>
                  var target := b.invoices[r.invoice.value];
                  var open := target.status in {Sent, Overdue};
                  var fits := Committed(b, r.invoice.value) + r.amount.value <= target.total;
                  && (out == Err(Validation("invalid_invoice_status")) <==> !open)
                  && (out == Err(Validation("exceeds_balance")) <==> open && !fits)
                  && (out == Err(Validation("duplicate_payment")) <==> open && fits && r.duplicate)
                  && (out == Err(NotWritten) <==> open && fits && !r.duplicate && !r.written))
  {
  }

  /** What updates and deletes write: the path's row, and only what they name. */
  lemma WritesOneRow(b: Books, r: Request)
    requires Accepted(b, r) && !r.CreateInvoice? && !r.CreatePayment?
    ensures var c := Step(b, r).0;
            match r
            case UpdateInvoice(id, _, _, status, newTotal, _) =>
              && id < |b.invoices| && b.invoices[id].live && c.payments == b.payments && c.audit == b.audit
              && c.invoices == b.invoices[id := Invoice(if status.Some? then status.value else b.invoices[id].status,
                                                        if newTotal.Some? then newTotal.value else b.invoices[id].total,
                                                        true)]
            case DeleteInvoice(id, _) =>
              && id < |b.invoices| && b.invoices[id].live && c.payments == b.payments && c.audit == b.audit
              && c.invoices == b.invoices[id := Invoice(b.invoices[id].status, b.invoices[id].total, false)]
            case UpdatePayment(id, named, role, newStatus, _) =>
              && id < |b.payments|
              && c.invoices == PaymentHook(b, named, role, newStatus).0.invoices
              && c.audit == PaymentHook(b, named, role, newStatus).0.audit
              && c.payments
                 == b.payments[id := Payment(b.payments[id].invoice, b.payments[id].amount,
                                             if newStatus.Some? then newStatus.value else b.payments[id].status)]
            case _ => true
  {
  }

  predicate HasInvoice(b: Books, id: nat) {
    id < |b.invoices| && b.invoices[id].live
  }

  /** An update or delete is accepted exactly when the row it writes is there, its hook lets it
      pass and the database writes it; a refusal by the hook is passed on and, but for what a
      payment hook has marked, changes nothing. */
  lemma AcceptedExactly(b: Books, r: Request)
    ensures Accepted(b, r) ==> r.written
    ensures r.DeleteInvoice? ==>
              && (Accepted(b, r) <==> HasInvoice(b, r.id) && r.written)
              && (Step(b, r).1 == Err(NotFound) <==> !HasInvoice(b, r.id))
              && (Step(b, r).1 == Err(NotWritten) <==> HasInvoice(b, r.id) && !r.written)
    ensures r.UpdateInvoice? ==>
              var hook := InvoiceHook(b, r.named, r.role, r.status);
              && (Accepted(b, r) <==> hook.Ok? && HasInvoice(b, r.id) && r.written)
              && (hook.Err? ==> Step(b, r).1 == hook)
              && (hook.Ok? ==> (Step(b, r).1 == Err(NotFound) <==> !HasInvoice(b, r.id)))
              && (hook.Ok? ==> (Step(b, r).1 == Err(NotWritten) <==> HasInvoice(b, r.id) && !r.written))
    ensures r.UpdatePayment? ==>
              var (marked, hook) := PaymentHook(b, r.named, r.role, r.newStatus);
              && (Accepted(b, r) <==> hook.Ok? && r.id < |b.payments| && r.written)
              && (hook.Err? ==> Step(b, r).1 == hook)
              && (hook.Ok? ==> (Step(b, r).1 == Err(NotFound) <==> r.id >= |b.payments|))
              && (hook.Ok? ==> (Step(b, r).1 == Err(NotWritten) <==> r.id < |b.payments| && !r.written))
              && (!Accepted(b, r) ==> Step(b, r).0 == marked)
    ensures !Accepted(b, r) && !r.UpdatePayment? ==> Step(b, r).0 == b
  {
  }

  // ----- Who may own a payment ----------------------------------------------

  predicate Payable(s: InvoiceStatus) {
    s == Sent || s == Overdue || s == Paid
  }

  ghost predicate PayableInvoice(b: Books, i: nat) {
    i < |b.invoices| && Payable(b.invoices[i].status)
  }

  /** Invoices with payments have left draft and pending and are not void, and those marked
      paid by a payment are still paid. */
  ghost predicate Sound(b: Books) {
    && (forall k :: 0 <= k < |b.payments| ==> PayableInvoice(b, b.payments[k].invoice))
    && (forall k :: 0 <= k < |b.audit| ==> PaidInvoice(b, b.audit[k].invoice))
  }

  ghost predicate PaidInvoice(b: Books, i: nat) {
    i < |b.invoices| && b.invoices[i].status == Paid
  }

  /** What one request may do to a status. Overdue to paid happens only through a payment. */
  predicate MayBecome(s: InvoiceStatus, t: InvoiceStatus) {
    s == t || Allowed(s, t) || (s, t) == (Overdue, Paid)
  }

  /** What any number of requests may do. */
  predicate Reaches(s: InvoiceStatus, t: InvoiceStatus) {
    s == t ||
    match s
    case Draft => true
    case Pending => Payable(t)
    case Sent => t == Overdue || t == Paid
    case Overdue => t == Paid
    case Paid => false
    case Void => false
  }

  predicate PaymentMayBecome(p: Payment, q: Payment) {
    p.invoice == q.invoice && p.amount == q.amount && (p.status in {Completed, Refunded} ==> q.status == p.status)
  }

  ghost predicate Advances(b: Books, c: Books) {
    && |b.invoices| <= |c.invoices| && |b.payments| <= |c.payments|
    && (forall i :: 0 <= i < |b.invoices| ==> MayBecome(b.invoices[i].status, c.invoices[i].status))
    && (forall k :: 0 <= k < |b.payments| ==> PaymentMayBecome(b.payments[k], c.payments[k]))
  }

  /** The status rules, read off the row that is written. */
  predicate KeepsStatuses(b: Books, r: Request) {
    Accepted(b, r) ==>
      match r
      case UpdateInvoice(id, _, _, status, _, _) => status.Some? ==> MayBecome(b.invoices[id].status, status.value)
      case UpdatePayment(id, _, _, newStatus, _) =>
        newStatus.Some? && b.payments[id].status in {Completed, Refunded} ==> newStatus.value == b.payments[id].status
      case _ => true
  }

  lemma PaymentsAdvance(b: Books, r: Request)
    requires KeepsStatuses(b, r)
    ensures |b.payments| <= |Step(b, r).0.payments|
    ensures forall k :: 0 <= k < |b.payments| ==> PaymentMayBecome(b.payments[k], Step(b, r).0.payments[k])
  {
  }

  lemma InvoicesAdvance(b: Books, r: Request)
    requires Sound(b) && KeepsStatuses(b, r)
    ensures |b.invoices| <= |Step(b, r).0.invoices|
    ensures forall i :: 0 <= i < |b.invoices| ==> MayBecome(b.invoices[i].status, Step(b, r).0.invoices[i].status)
  {
    if r.UpdatePayment? && r.named.Some? && r.named.value < |b.payments| {
      assert PayableInvoice(b, b.payments[r.named.value].invoice);
    }
  }

  /** Where invoices only move along the edges, those with payments stay payable and paid ones
      paid. */
  lemma StaysSound(b: Books, r: Request)
    requires Sound(b) && Advances(b, Step(b, r).0)
    ensures Sound(Step(b, r).0)
  {
    var c := Step(b, r).0;
    forall k | 0 <= k < |c.payments|
      ensures PayableInvoice(c, c.payments[k].invoice)
    {
      if k < |b.payments| {
        assert PayableInvoice(b, b.payments[k].invoice) && PaymentMayBecome(b.payments[k], c.payments[k]);
      }
    }
    PaidStaysPaid(b, r);
  }

  lemma PaidStaysPaid(b: Books, r: Request)
    requires Sound(b) && Advances(b, Step(b, r).0)
    ensures forall k :: 0 <= k < |Step(b, r).0.audit| ==> PaidInvoice(Step(b, r).0, Step(b, r).0.audit[k].invoice)
  {
    var c := Step(b, r).0;
    forall k | 0 <= k < |c.audit|
      ensures PaidInvoice(c, c.audit[k].invoice)
    {
      assert k < |b.audit| ==> PaidInvoice(b, b.audit[k].invoice);
    }
  }

  /** One request keeps the books sound and moves statuses forward exactly when it follows the
      status rules on the row it writes. */
  lemma StepAdvancesExactly(b: Books, r: Request)
    requires Sound(b)
    ensures Sound(Step(b, r).0) && Advances(b, Step(b, r).0) <==> KeepsStatuses(b, r)
  {
    if KeepsStatuses(b, r) {
      PaymentsAdvance(b, r);
      InvoicesAdvance(b, r);
      StaysSound(b, r);
    } else if r.UpdateInvoice? {
      assert !MayBecome(b.invoices[r.id].status, Step(b, r).0.invoices[r.id].status);
    } else {
      assert !PaymentMayBecome(b.payments[r.id], Step(b, r).0.payments[r.id]);
    }
  }

  lemma ToldKeepsStatuses(b: Books, r: Request)
    requires Told(b, r)
    ensures KeepsStatuses(b, r)
  {
  }

  ghost predicate EachKeepsStatuses(b: Books, rs: seq<Request>) {
    forall k :: 0 <= k < |rs| ==> KeepsStatuses(Run(b, rs[..k]), rs[k])
  }

  ghost predicate AdvancesAt(b: Books, rs: seq<Request>, k: nat)
    requires k < |rs|
  {
    Sound(Run(b, rs[..k + 1])) && Advances(Run(b, rs[..k]), Run(b, rs[..k + 1]))
  }

  /** Each state of a run is sound and follows from the one before along the edges. */
  ghost predicate AlwaysAdvances(b: Books, rs: seq<Request>) {
    forall k :: 0 <= k < |rs| ==> AdvancesAt(b, rs, k)
  }

  lemma {:induction false} AdvancesAtExactly(b: Books, rs: seq<Request>, k: nat)
    requires k < |rs| && Sound(Run(b, rs[..k]))
    ensures AdvancesAt(b, rs, k) <==> KeepsStatuses(Run(b, rs[..k]), rs[k])
  {
    RunOneMore(b, rs, k);
    StepAdvancesExactly(Run(b, rs[..k]), rs[k]);
  }

  ghost predicate Advanced(b: Books, c: Books) {
    && |b.invoices| <= |c.invoices| && |b.payments| <= |c.payments|
    && (forall i :: 0 <= i < |b.invoices| ==> Reaches(b.invoices[i].status, c.invoices[i].status))
    && (forall k :: 0 <= k < |b.payments| ==> PaymentMayBecome(b.payments[k], c.payments[k]))
  }

  lemma {:induction false} AdvancedUpTo(b: Books, rs: seq<Request>, k: nat)
    requires Sound(b) && EachKeepsStatuses(b, rs) && k <= |rs|
    ensures Sound(Run(b, rs[..k])) && Advanced(b, Run(b, rs[..k]))
  {
    if k > 0 {
      AdvancedUpTo(b, rs, k - 1);
      assert KeepsStatuses(Run(b, rs[..k - 1]), rs[k - 1]);
      AdvancesAtExactly(b, rs, k - 1);
    }
  }

  lemma {:induction false} SoundUpTo(b: Books, rs: seq<Request>, k: nat)
    requires Sound(b) && AlwaysAdvances(b, rs) && k <= |rs|
    ensures Sound(Run(b, rs[..k]))
  {
    if k > 0 {
      assert AdvancesAt(b, rs, k - 1);
    }
  }

  /** Main result, whole runs: every state of a run is sound and follows from the one before
      along the edges exactly when every accepted update follows the status rules on the row
      it writes. */
  lemma RunAdvancesExactly(b: Books, rs: seq<Request>)
    requires Sound(b)
    ensures AlwaysAdvances(b, rs) <==> EachKeepsStatuses(b, rs)
  {
    if AlwaysAdvances(b, rs) {
      forall k: nat | k < |rs|
        ensures KeepsStatuses(Run(b, rs[..k]), rs[k])
      {
        SoundUpTo(b, rs, k);
        assert AdvancesAt(b, rs, k);
        AdvancesAtExactly(b, rs, k);
      }
    }
    if EachKeepsStatuses(b, rs) {
      forall k: nat | k < |rs|
        ensures AdvancesAt(b, rs, k)
      {
        AdvancedUpTo(b, rs, k);
        AdvancesAtExactly(b, rs, k);
      }
    }
  }

  /** Then statuses only move forward over the whole run, void and paid are final, and settled
      payments never change. */
  lemma {:induction false} RunAdvances(b: Books, rs: seq<Request>)
    requires Sound(b) && EachKeepsStatuses(b, rs)
    ensures Sound(Run(b, rs)) && Advanced(b, Run(b, rs))
  {
    AdvancedUpTo(b, rs, |rs|);
    assert rs[..|rs|] == rs;
  }

  /** So it is when every hook is told the row that is written. */
  lemma {:induction false} ToldRunAdvances(b: Books, rs: seq<Request>)
    requires Sound(b) && EachTold(b, rs)
    ensures EachKeepsStatuses(b, rs) && Advanced(b, Run(b, rs))
  {
    forall k: nat | k < |rs|
      ensures KeepsStatuses(Run(b, rs[..k]), rs[k])
    {
      assert Told(Run(b, rs[..k]), rs[k]);
      ToldKeepsStatuses(Run(b, rs[..k]), rs[k]);
    }
    RunAdvances(b, rs);
  }

  /** The unconditional UPDATE that marks an invoice paid then never moves one that is still
      being prepared or has been voided: it finds it sent, overdue or already paid. */
  lemma {:induction false} AutoPaidIsDeserved(rs: seq<Request>, named: Option<nat>, role: Option<string>,
                                              status: Option<PaymentStatus>, i: nat)
    requires EachKeepsStatuses(EMPTY, rs)
    requires var b := Run(EMPTY, rs); i < |b.invoices|
    requires var b := Run(EMPTY, rs); PaymentHook(b, named, role, status).0.invoices[i] != b.invoices[i]
    ensures Run(EMPTY, rs).invoices[i].status in {Sent, Overdue}
    ensures PaymentHook(Run(EMPTY, rs), named, role, status).0.invoices[i].status == Paid
  {
    RunAdvances(EMPTY, rs);
  }

  // ----- Conservation -------------------------------------------------------

  ghost predicate Covered(b: Books, i: nat)
    requires i < |b.invoices|
  {
    Committed(b, i) <= b.invoices[i].total
  }

  /** No invoice has more money promised to it than it asks for. */
  ghost predicate Conserved(b: Books) {
    forall i :: 0 <= i < |b.invoices| ==> Covered(b, i)
  }

  /** Every payment is on an invoice. No request can change that. */
  ghost predicate Anchored(b: Books) {
    forall k :: 0 <= k < |b.payments| ==> b.payments[k].invoice < |b.invoices|
  }

  lemma StepAnchored(b: Books, r: Request)
    requires Anchored(b)
    ensures Anchored(Step(b, r).0) && |b.invoices| <= |Step(b, r).0.invoices|
  {
  }

  lemma {:induction false} RunAnchored(rs: seq<Request>)
    ensures Anchored(Run(EMPTY, rs))
  {
    if rs != [] {
      var n := |rs| - 1;
      RunAnchored(rs[..n]);
      StepAnchored(Run(EMPTY, rs[..n]), rs[n]);
    }
  }

  /** What is still open on the payment's invoice. */
  function Remaining(b: Books, p: Payment): int {
    if p.invoice < |b.invoices| then b.invoices[p.invoice].total - Committed(b, p.invoice) else 0
  }

  /** What a payment adds to the sum over `kinds` when its status changes. */
  function Change(p: Payment, newStatus: PaymentStatus, kinds: set<PaymentStatus>): int {
    (if newStatus in kinds then p.amount else 0) - (if p.status in kinds then p.amount else 0)
  }

  /** The balance checks the controllers would have to make: creating a payment makes its own;
      changing a total, and changing a payment's status so that it counts for more, do not. */
  predicate Fits(b: Books, r: Request) {
    Accepted(b, r) ==>
      match r
      case CreateInvoice(_, _, total, _) => total >= 0
      case UpdateInvoice(id, _, _, _, newTotal, _) => newTotal.Some? ==> Committed(b, id) <= newTotal.value
      case UpdatePayment(id, _, _, newStatus, _) =>
        newStatus.Some? ==> Change(b.payments[id], newStatus.value, COUNTED) <= Remaining(b, b.payments[id])
      case _ => true
  }

  lemma NewInvoiceOwesNothing(b: Books)
    requires Anchored(b)
    ensures Committed(b, |b.invoices|) == 0
  {
    NoPaymentsNoSum(b.payments, |b.invoices|, COUNTED);
  }

  /** How one accepted request moves the money of an invoice in some kinds of payments. */
  lemma {:induction false} StepSums(b: Books, r: Request, i: nat, kinds: set<PaymentStatus>)
    ensures Sum(Step(b, r).0.payments, i, kinds, {}) == Sum(b.payments, i, kinds, {}) + Moved(b, r, i, kinds)
  {
    if r.CreatePayment? && Accepted(b, r) {
      SumAppend(b.payments, Payment(r.invoice.value, r.amount.value, Waiting), i, kinds);
    }
    if r.UpdatePayment? && Accepted(b, r) {
      var was := b.payments[r.id];
      SumChange(b.payments, r.id, was.(status := OrElse(r.newStatus, was.status)), i, kinds);
    }
  }

  function Moved(b: Books, r: Request, i: nat, kinds: set<PaymentStatus>): int {
    if !Accepted(b, r) then 0
    else match r
      case CreatePayment(_, invoice, amount, _, _) => if invoice == Some(i) && Waiting in kinds then amount.value else 0
      case UpdatePayment(id, _, _, newStatus, _) =>
        if newStatus.Some? && b.payments[id].invoice == i then Change(b.payments[id], newStatus.value, kinds) else 0
      case _ => 0
  }

  /** The one invoice whose balance a request can upset. */
  function Subject(b: Books, r: Request): nat {
    match r
    case CreateInvoice(_, _, _, _) => |b.invoices|
    case UpdateInvoice(id, _, _, _, _, _) => id
    case DeleteInvoice(id, _) => id
    case CreatePayment(_, invoice, _, _, _) => OrElse(invoice, 0)
    case UpdatePayment(id, _, _, _, _) => if id < |b.payments| then b.payments[id].invoice else 0
  }

  lemma OthersStayCovered(b: Books, r: Request, i: nat)
    requires i < |b.invoices| && i != Subject(b, r)
    ensures i < |Step(b, r).0.invoices| && Covered(Step(b, r).0, i) == Covered(b, i)
  {
    StepSums(b, r, i, COUNTED);
  }

  lemma SubjectCovered(b: Books, r: Request)
    requires Anchored(b) && Conserved(b) && Subject(b, r) < |Step(b, r).0.invoices|
    ensures Covered(Step(b, r).0, Subject(b, r)) == Fits(b, r)
  {
    var i := Subject(b, r);
    StepSums(b, r, i, COUNTED);
    NewInvoiceOwesNothing(b);
    assert i < |b.invoices| ==> Covered(b, i);
  }

  lemma NoSubjectFits(b: Books, r: Request)
    requires Anchored(b) && Subject(b, r) >= |Step(b, r).0.invoices|
    ensures Fits(b, r)
  {
  }

  /** Main result, one request, whichever row its hook reads: the books stay conserved exactly
      when the balance check holds. */
  lemma StepConserves(b: Books, r: Request)
    requires Anchored(b) && Conserved(b)
    ensures Conserved(Step(b, r).0) <==> Fits(b, r)
  {
    var c := Step(b, r).0;
    var i := Subject(b, r);
    if i < |c.invoices| {
      SubjectCovered(b, r);
    } else {
      NoSubjectFits(b, r);
    }
    forall j: nat | j < |c.invoices| && j != i
      ensures Covered(c, j)
    {
      assert j < |b.invoices|;
      assert Covered(b, j);
      OthersStayCovered(b, r, j);
    }
  }

  ghost predicate AlwaysConserved(b: Books, rs: seq<Request>) {
    forall k :: 0 <= k <= |rs| ==> Conserved(Run(b, rs[..k]))
  }

  ghost predicate EachFits(b: Books, rs: seq<Request>) {
    forall k :: 0 <= k < |rs| ==> Fits(Run(b, rs[..k]), rs[k])
  }

  lemma ConservedAt(rs: seq<Request>, k: nat)
    requires k < |rs| && Conserved(Run(EMPTY, rs[..k]))
    ensures Conserved(Run(EMPTY, rs[..k + 1])) <==> Fits(Run(EMPTY, rs[..k]), rs[k])
  {
    RunAnchored(rs[..k]);
    RunOneMore(EMPTY, rs, k);
    StepConserves(Run(EMPTY, rs[..k]), rs[k]);
  }

  /** Main result, whole runs: promised money never exceeds an invoice's total in any state
      of a run exactly when every accepted request of the run passes the balance check. */
  lemma RunConserves(rs: seq<Request>)
    ensures AlwaysConserved(EMPTY, rs) <==> EachFits(EMPTY, rs)
  {
    if AlwaysConserved(EMPTY, rs) {
      forall k: nat | k < |rs|
        ensures Fits(Run(EMPTY, rs[..k]), rs[k])
      {
        assert Conserved(Run(EMPTY, rs[..k])) && Conserved(Run(EMPTY, rs[..k + 1]));
        ConservedAt(rs, k);
      }
    }
    if EachFits(EMPTY, rs) {
      forall k: nat | k <= |rs|
        ensures Conserved(Run(EMPTY, rs[..k]))
      {
        ConservedUpTo(rs, k);
      }
    }
  }

  lemma {:induction false} ConservedUpTo(rs: seq<Request>, k: nat)
    requires EachFits(EMPTY, rs) && k <= |rs|
    ensures Conserved(Run(EMPTY, rs[..k]))
  {
    if k > 0 {
      ConservedUpTo(rs, k - 1);
      assert Fits(Run(EMPTY, rs[..k - 1]), rs[k - 1]);
      ConservedAt(rs, k - 1);
    }
  }

  // ----- Settlement ---------------------------------------------------------

  ghost predicate PaidUp(b: Books, e: AutoPaid) {
    e.invoice < |b.invoices| && Received(b, e.invoice) == b.invoices[e.invoice].total == e.totalPaid
  }

  /** Every invoice that a payment marked paid has received exactly its total. */
  ghost predicate Settled(b: Books) {
    forall k :: 0 <= k < |b.audit| ==> PaidUp(b, b.audit[k])
  }

  /** Whether the hook for this request marks the invoice of the named payment paid. */
  predicate MarksPaid(b: Books, r: Request) {
    && r.UpdatePayment? && r.newStatus == Some(Completed)
    && r.named.Some? && r.named.value < |b.payments| && b.payments[r.named.value].status in {Waiting, Failed}
    && b.payments[r.named.value].invoice < |b.invoices|
    && PaidWith(b, r.named.value) >= b.invoices[b.payments[r.named.value].invoice].total
  }

  /** What the invoice of payment `k` has received once that payment is completed. */
  function PaidWith(b: Books, k: nat): int
    requires k < |b.payments|
  {
    Sum(b.payments, b.payments[k].invoice, DONE, {k}) + b.payments[k].amount
  }

  /** What has to hold for an invoice already marked paid: no payment of it changes what it has
      received, and its total stays. */
  predicate LeavesAlone(b: Books, r: Request, i: nat) {
    && Moved(b, r, i, DONE) == 0
    && (r.UpdateInvoice? && Accepted(b, r) && r.id == i && r.newTotal.Some? && i < |b.invoices| ==>
          r.newTotal.value == b.invoices[i].total)
  }

  /** What has to hold when an invoice is marked paid: the row write that follows brings in the
      amount the mark counted on, and that makes the total. */
  predicate Brings(b: Books, r: Request, k: nat)
    requires k < |b.payments| && b.payments[k].invoice < |b.invoices|
  {
    var p := b.payments[k];
    Moved(b, r, p.invoice, DONE) == p.amount && Received(b, p.invoice) + p.amount == b.invoices[p.invoice].total
  }

  ghost predicate Settles(b: Books, r: Request) {
    && (forall k :: 0 <= k < |b.audit| ==> LeavesAlone(b, r, b.audit[k].invoice))
    && (MarksPaid(b, r) ==> Brings(b, r, r.named.value))
  }

  lemma MarkedAfter(b: Books, r: Request)
    ensures MarksPaid(b, r) ==>
              Step(b, r).0.audit
              == b.audit + [AutoPaid(b.payments[r.named.value].invoice, r.named.value, PaidWith(b, r.named.value))]
    ensures !MarksPaid(b, r) ==> Step(b, r).0.audit == b.audit
  {
  }

  lemma PaidWithIs(b: Books, k: nat)
    requires k < |b.payments| && b.payments[k].status in {Waiting, Failed}
    ensures PaidWith(b, k) == Received(b, b.payments[k].invoice) + b.payments[k].amount
  {
    SumExcept(b.payments, b.payments[k].invoice, DONE, k);
  }

  lemma OldEntry(b: Books, r: Request, e: AutoPaid)
    requires PaidUp(b, e)
    ensures PaidUp(Step(b, r).0, e) <==> LeavesAlone(b, r, e.invoice)
  {
    StepSums(b, r, e.invoice, DONE);
  }

  lemma NewEntry(b: Books, r: Request)
    requires MarksPaid(b, r)
    ensures var k := r.named.value;
            PaidUp(Step(b, r).0, AutoPaid(b.payments[k].invoice, k, PaidWith(b, k))) <==> Brings(b, r, k)
  {
    PaidWithIs(b, r.named.value);
    StepSums(b, r, b.payments[r.named.value].invoice, DONE);
  }

  lemma EntriesAfter(b: Books, r: Request, k: nat)
    requires Settled(b) && k < |b.audit|
    ensures k < |Step(b, r).0.audit|
    ensures PaidUp(Step(b, r).0, Step(b, r).0.audit[k]) <==> LeavesAlone(b, r, b.audit[k].invoice)
  {
    MarkedAfter(b, r);
    assert PaidUp(b, b.audit[k]);
    OldEntry(b, r, b.audit[k]);
  }

  /** Main result, one request: every invoice that a payment has marked paid has received
      exactly its total afterwards exactly when the request leaves the marked ones alone and
      brings in what a new mark counts on. */
  lemma StepSettles(b: Books, r: Request)
    requires Settled(b)
    ensures Settled(Step(b, r).0) <==> Settles(b, r)
  {
    var c := Step(b, r).0;
    MarkedAfter(b, r);
    forall k: nat | k < |b.audit|
      ensures PaidUp(c, c.audit[k]) <==> LeavesAlone(b, r, b.audit[k].invoice)
    {
      EntriesAfter(b, r, k);
    }
    if MarksPaid(b, r) {
      NewEntry(b, r);
      assert PaidUp(c, c.audit[|b.audit|]) <==> Brings(b, r, r.named.value);
    }
  }

  ghost predicate EachSettles(rs: seq<Request>) {
    forall k :: 0 <= k < |rs| ==> Settles(Run(EMPTY, rs[..k]), rs[k])
  }

  ghost predicate AlwaysSettled(rs: seq<Request>) {
    forall k :: 0 <= k <= |rs| ==> Settled(Run(EMPTY, rs[..k]))
  }

  lemma SettledAt(rs: seq<Request>, k: nat)
    requires k < |rs| && Settled(Run(EMPTY, rs[..k]))
    ensures Settled(Run(EMPTY, rs[..k + 1])) <==> Settles(Run(EMPTY, rs[..k]), rs[k])
  {
    RunOneMore(EMPTY, rs, k);
    StepSettles(Run(EMPTY, rs[..k]), rs[k]);
  }

  lemma {:induction false} SettledUpTo(rs: seq<Request>, k: nat)
    requires EachSettles(rs) && k <= |rs|
    ensures Settled(Run(EMPTY, rs[..k]))
  {
    if k > 0 {
      SettledUpTo(rs, k - 1);
      assert Settles(Run(EMPTY, rs[..k - 1]), rs[k - 1]);
      SettledAt(rs, k - 1);
    }
  }

  /** Main result, whole runs: the same for all states of a run. */
  lemma RunSettlesExactly(rs: seq<Request>)
    ensures AlwaysSettled(rs) <==> EachSettles(rs)
  {
    if EachSettles(rs) {
      forall k: nat | k <= |rs|
        ensures Settled(Run(EMPTY, rs[..k]))
      {
        SettledUpTo(rs, k);
      }
    }
    if AlwaysSettled(rs) {
      forall k: nat | k < |rs|
        ensures Settles(Run(EMPTY, rs[..k]), rs[k])
      {
        assert Settled(Run(EMPTY, rs[..k])) && Settled(Run(EMPTY, rs[..k + 1]));
        SettledAt(rs, k);
      }
    }
  }

  // ----- Careful use --------------------------------------------------------

  ghost predicate NonNegative(b: Books) {
    forall p :: p in b.payments ==> p.amount >= 0
  }

  /** Non-negative amounts, totals fixed once an invoice is sent, failed payments left failed,
      and every hook told the row that is written. */
  predicate Careful(b: Books, r: Request) {
    && Told(b, r)
    && match r
       case CreateInvoice(_, _, total, _) => total >= 0
       case UpdateInvoice(id, _, _, _, newTotal, _) =>
         newTotal.Some? && id < |b.invoices| ==> newTotal.value >= 0 && !Payable(b.invoices[id].status)
       case CreatePayment(_, _, amount, _, _) => amount.Some? ==> amount.value >= 0
       case UpdatePayment(id, _, _, newStatus, _) =>
         id < |b.payments| && b.payments[id].status == Failed ==>
           newStatus != Some(Waiting) && newStatus != Some(Completed)
       case _ => true
  }

  lemma CarefulStaysNonNegative(b: Books, r: Request)
    requires NonNegative(b) && Careful(b, r)
    ensures NonNegative(Step(b, r).0)
  {
    if r.UpdatePayment? && r.id < |b.payments| {
      assert b.payments[r.id] in b.payments;
    }
  }

  lemma UnsentOwesNothing(b: Books, i: nat)
    requires Sound(b) && i < |b.invoices| && !Payable(b.invoices[i].status)
    ensures Committed(b, i) == 0
  {
    forall p | p in b.payments
      ensures p.invoice != i
    {
      var k :| 0 <= k < |b.payments| && b.payments[k] == p;
      assert PayableInvoice(b, b.payments[k].invoice);
    }
    NoPaymentsNoSum(b.payments, i, COUNTED);
  }

  lemma SoundIsAnchored(b: Books)
    requires Sound(b)
    ensures Anchored(b)
  {
    forall k | 0 <= k < |b.payments|
      ensures b.payments[k].invoice < |b.invoices|
    {
      assert PayableInvoice(b, b.payments[k].invoice);
    }
  }

  lemma CarefulFits(b: Books, r: Request)
    requires InOrder(b) && Careful(b, r)
    ensures Fits(b, r)
  {
    if r.UpdateInvoice? && Accepted(b, r) && r.newTotal.Some? {
      UnsentOwesNothing(b, r.id);
    }
    if r.UpdatePayment? && Accepted(b, r) {
      var p := b.payments[r.id];
      assert p in b.payments && PayableInvoice(b, p.invoice) && Covered(b, p.invoice);
    }
  }

  /** The books under careful use. */
  ghost predicate InOrder(b: Books) {
    Sound(b) && Conserved(b) && NonNegative(b)
  }

  lemma CarefulStep(b: Books, r: Request)
    requires InOrder(b) && Careful(b, r)
    ensures InOrder(Step(b, r).0)
  {
    ToldKeepsStatuses(b, r);
    StepAdvancesExactly(b, r);
    CarefulFits(b, r);
    CarefulStaysNonNegative(b, r);
    SoundIsAnchored(b);
    StepConserves(b, r);
  }

  /** The mark is made before the payment's own row is written; if that write then fails, the
      other payments must already have covered the invoice, exactly as the audit entry says. */
  predicate Lands(b: Books, r: Request) {
    MarksPaid(b, r) && !r.written ==>
      var p := b.payments[r.named.value];
      p.amount == 0 && Received(b, p.invoice) == b.invoices[p.invoice].total
  }

  lemma ReceivedAtMostTotal(b: Books, i: nat)
    requires InOrder(b) && i < |b.invoices|
    ensures Received(b, i) <= b.invoices[i].total
  {
    ReceivedIsCommitted(b.payments, i);
    assert Covered(b, i);
  }

  lemma CarefulAddsOnly(b: Books, r: Request, i: nat)
    requires NonNegative(b) && Careful(b, r)
    ensures Moved(b, r, i, DONE) >= 0
  {
    if r.UpdatePayment? && r.id < |b.payments| {
      assert b.payments[r.id] in b.payments;
    }
  }

  lemma PaidTotalStays(b: Books, r: Request, i: nat)
    requires Told(b, r) && PaidInvoice(b, i)
    ensures i < |Step(b, r).0.invoices| && Step(b, r).0.invoices[i].total == b.invoices[i].total
    ensures r.UpdateInvoice? && Accepted(b, r) ==> r.id != i
  {
  }

  lemma CarefulLeavesAlone(b: Books, r: Request, k: nat)
    requires InOrder(b) && Careful(b, r) && k < |b.audit| && PaidUp(b, b.audit[k])
    ensures LeavesAlone(b, r, b.audit[k].invoice)
  {
    var i := b.audit[k].invoice;
    assert PaidInvoice(b, i);
    PaidTotalStays(b, r, i);
    CarefulAddsOnly(b, r, i);
    CarefulStep(b, r);
    StepSums(b, r, i, DONE);
    ReceivedAtMostTotal(Step(b, r).0, i);
  }

  lemma CarefulBrings(b: Books, r: Request)
    requires InOrder(b) && Careful(b, r) && MarksPaid(b, r)
    ensures Brings(b, r, r.named.value) <==> Lands(b, r)
  {
    var k := r.named.value;
    var i := b.payments[k].invoice;
    PaidWithIs(b, k);
    CarefulStep(b, r);
    StepSums(b, r, i, DONE);
    ReceivedAtMostTotal(Step(b, r).0, i);
    ReceivedAtMostTotal(b, i);
    assert b.payments[k] in b.payments;
  }

  /** Under careful use a request settles what it must exactly when a mark keeps its write. */
  lemma CarefulSettles(b: Books, r: Request)
    requires InOrder(b) && Settled(b) && Careful(b, r)
    ensures Settles(b, r) <==> Lands(b, r)
  {
    forall k | 0 <= k < |b.audit|
      ensures LeavesAlone(b, r, b.audit[k].invoice)
    {
      assert PaidUp(b, b.audit[k]);
      CarefulLeavesAlone(b, r, k);
    }
    if MarksPaid(b, r) {
      CarefulBrings(b, r);
    }
  }

  ghost predicate EachCareful(rs: seq<Request>) {
    forall k :: 0 <= k < |rs| ==> Careful(Run(EMPTY, rs[..k]), rs[k])
  }

  ghost predicate EachLands(rs: seq<Request>) {
    forall k :: 0 <= k < |rs| ==> Lands(Run(EMPTY, rs[..k]), rs[k])
  }

  lemma {:induction false} CarefulUpTo(rs: seq<Request>, k: nat)
    requires EachCareful(rs) && k <= |rs|
    ensures InOrder(Run(EMPTY, rs[..k]))
  {
    if k > 0 {
      CarefulUpTo(rs, k - 1);
      RunOneMore(EMPTY, rs, k - 1);
      assert Careful(Run(EMPTY, rs[..k - 1]), rs[k - 1]);
      CarefulStep(Run(EMPTY, rs[..k - 1]), rs[k - 1]);
    }
  }

  lemma CarefulAt(rs: seq<Request>, k: nat)
    requires EachCareful(rs) && k < |rs| && Settled(Run(EMPTY, rs[..k]))
    ensures Settled(Run(EMPTY, rs[..k + 1])) <==> Lands(Run(EMPTY, rs[..k]), rs[k])
  {
    CarefulUpTo(rs, k);
    assert Careful(Run(EMPTY, rs[..k]), rs[k]);
    CarefulSettles(Run(EMPTY, rs[..k]), rs[k]);
    SettledAt(rs, k);
  }

  lemma {:induction false} LandedUpTo(rs: seq<Request>, k: nat)
    requires EachCareful(rs) && EachLands(rs) && k <= |rs|
    ensures Settled(Run(EMPTY, rs[..k]))
  {
    if k > 0 {
      LandedUpTo(rs, k - 1);
      assert Lands(Run(EMPTY, rs[..k - 1]), rs[k - 1]);
      CarefulAt(rs, k - 1);
    }
  }

  /** Main result, whole runs: careful use conserves every balance in every state, and settles
      every auto-paid invoice in every state exactly when no marking request loses its write. */
  lemma RunSettles(rs: seq<Request>)
    requires EachCareful(rs)
    ensures AlwaysConserved(EMPTY, rs)
    ensures AlwaysSettled(rs) <==> EachLands(rs)
  {
    forall k: nat | k <= |rs|
      ensures InOrder(Run(EMPTY, rs[..k]))
      ensures EachLands(rs) ==> Settled(Run(EMPTY, rs[..k]))
    {
      CarefulUpTo(rs, k);
      if EachLands(rs) {
        LandedUpTo(rs, k);
      }
    }
    if AlwaysSettled(rs) {
      forall k: nat | k < |rs|
        ensures Lands(Run(EMPTY, rs[..k]), rs[k])
      {
        assert Settled(Run(EMPTY, rs[..k])) && Settled(Run(EMPTY, rs[..k + 1]));
        CarefulAt(rs, k);
      }
    }
  }

  // ----- Each missing check matters -----------------------------------------

  ghost predicate Reachable(b: Books) {
    exists rs :: Run(EMPTY, rs) == b
  }

  lemma Next(b: Books, r: Request, c: Books)
    requires Reachable(b) && Step(b, r).0 == c
    ensures Reachable(c)
  {
    var rs :| Run(EMPTY, rs) == b;
    assert (rs + [r])[..|rs|] == rs;
    assert Run(EMPTY, rs + [r]) == c;
  }

  /** One live invoice, and these payments on it. */
  function OneInvoice(status: InvoiceStatus, ps: seq<Payment>): Books {
    Books([Invoice(status, 100, true)], ps, [])
  }

  function NewInvoice(): Request {
    CreateInvoice(Some("admin"), Known(Active), 100, true)
  }

  /** Updates whose hook is told the row that is written. */
  function Move(id: nat, status: InvoiceStatus): Request {
    UpdateInvoice(id, Some(id), Some("admin"), Some(status), None, true)
  }

  function Mark(id: nat, status: PaymentStatus): Request {
    UpdatePayment(id, Some(id), Some("admin"), Some(status), true)
  }

  lemma OneInvoiceSent()
    ensures Reachable(OneInvoice(Sent, []))
  {
    assert Run(EMPTY, []) == EMPTY;
    Next(EMPTY, NewInvoice(), OneInvoice(Draft, []));
    Next(OneInvoice(Draft, []), Move(0, Pending), OneInvoice(Pending, []));
    Next(OneInvoice(Pending, []), Move(0, Sent), OneInvoice(Sent, []));
  }

  function Pay(amount: int): Request {
    CreatePayment(Some("admin"), Some(0), Some(amount), false, true)
  }

  lemma {:induction false} Paying(ps: seq<Payment>, amount: int)
    requires Reachable(OneInvoice(Sent, ps)) && amount <= 100 - Sum(ps, 0, COUNTED, {})
    ensures Reachable(OneInvoice(Sent, ps + [Payment(0, amount, Waiting)]))
  {
    Next(OneInvoice(Sent, ps), Pay(amount), OneInvoice(Sent, ps + [Payment(0, amount, Waiting)]));
  }

  lemma SumOne(p: Payment)
    ensures Sum([p], 0, COUNTED, {}) == Share(p, 0, COUNTED)
  {
    assert [p][..0] == [];
  }

  lemma SumTwo(p: Payment, q: Payment)
    ensures Sum([p, q], 0, COUNTED, {}) == Share(p, 0, COUNTED) + Share(q, 0, COUNTED)
  {
    assert [p, q] == [p] + [q];
    SumAppend([p], q, 0, COUNTED);
    SumOne(p);
  }

  lemma {:induction false} Upsets(ps: seq<Payment>, r: Request)
    requires Reachable(OneInvoice(Sent, ps)) && Sum(ps, 0, COUNTED, {}) <= 100
    requires Told(OneInvoice(Sent, ps), r) && !Fits(OneInvoice(Sent, ps), r)
    ensures Breaks(OneInvoice(Sent, ps), r)
  {
    var b := OneInvoice(Sent, ps);
    var rs :| Run(EMPTY, rs) == b;
    RunAnchored(rs);
    assert Covered(b, 0);
    StepConserves(b, r);
  }

  ghost predicate Breaks(b: Books, r: Request) {
    Reachable(b) && Conserved(b) && Told(b, r) && Accepted(b, r) && !Conserved(Step(b, r).0)
  }

  lemma OneFailed(first: Payment, failed: Payment)
    requires first == Payment(0, 60, Waiting) && failed == Payment(0, 60, Failed)
    ensures Reachable(OneInvoice(Sent, [failed]))
  {
    OneInvoiceSent();
    Paying([], 60);
    assert [] + [first] == [first];
    assert [first][0 := failed] == [failed];
    Next(OneInvoice(Sent, [first]), Mark(0, Failed), OneInvoice(Sent, [failed]));
  }

  /** A failed payment can be completed after its room was given to another. */
  lemma RevivedPaymentOverpays()
    ensures Breaks(OneInvoice(Sent, [Payment(0, 60, Failed), Payment(0, 60, Waiting)]), Mark(0, Completed))
  {
    var first := Payment(0, 60, Waiting);
    var failed := Payment(0, 60, Failed);
    OneFailed(first, failed);
    SumOne(failed);
    Paying([failed], 60);
    assert [failed] + [first] == [failed, first];
    SumTwo(failed, first);
    Upsets([failed, first], Mark(0, Completed));
  }

  function Lower(): Request {
    UpdateInvoice(0, Some(0), Some("finance"), None, Some(50), true)
  }

  /** The total of a sent invoice can be edited below what has been promised. */
  lemma LoweredTotalOverpays()
    ensures Breaks(OneInvoice(Sent, [Payment(0, 60, Waiting)]), Lower())
  {
    OneInvoiceSent();
    Paying([], 60);
    assert [] + [Payment(0, 60, Waiting)] == [Payment(0, 60, Waiting)];
    SumOne(Payment(0, 60, Waiting));
    Upsets([Payment(0, 60, Waiting)], Lower());
  }

  /** A negative payment makes room for too large a one, and can then be withdrawn. */
  lemma NegativePaymentOverpays()
    ensures Breaks(OneInvoice(Sent, [Payment(0, -50, Waiting), Payment(0, 150, Waiting)]), Mark(0, Failed))
  {
    var less, more := Payment(0, -50, Waiting), Payment(0, 150, Waiting);
    OneInvoiceSent();
    Paying([], -50);
    assert [] + [less] == [less];
    SumOne(less);
    Paying([less], 150);
    assert [less] + [more] == [less, more];
    SumTwo(less, more);
    NegativeWithdrawn(less, more);
    Upsets([less, more], Mark(0, Failed));
  }

  lemma NegativeWithdrawn(less: Payment, more: Payment)
    requires less == Payment(0, -50, Waiting) && more == Payment(0, 150, Waiting)
    ensures !Fits(OneInvoice(Sent, [less, more]), Mark(0, Failed))
  {
    SumTwo(less, more);
  }

  /** A completion whose row write fails leaves an invoice paid that has received nothing. */
  lemma LostWriteLeavesUnsettled()
    ensures var b := OneInvoice(Sent, [Payment(0, 100, Waiting)]);
            var r := UpdatePayment(0, Some(0), Some("admin"), Some(Completed), false);
            var c := Step(b, r).0;
            && Reachable(b) && Told(b, r) && Reachable(c)
            && Settled(b) && PaidInvoice(c, 0) && Received(c, 0) == 0 && !Settled(c)
  {
    var p := Payment(0, 100, Waiting);
    OneInvoiceSent();
    Paying([], 100);
    assert [] + [p] == [p];
    assert [p][..0] == [];
    var b := OneInvoice(Sent, [p]);
    var r := UpdatePayment(0, Some(0), Some("admin"), Some(Completed), false);
    var c := Step(b, r).0;
    Next(b, r, c);
    assert Sum([p], 0, DONE, {}) == 0 && Sum([p], 0, DONE, {0}) == 0;
    assert !PaidUp(c, c.audit[0]);
  }

  // ----- Naming another row --------------------------------------------------

  function TwoInvoices(first: InvoiceStatus, second: InvoiceStatus): Books {
    Books([Invoice(first, 100, true), Invoice(second, 100, true)], [], [])
  }

  /** With a draft named, a void invoice moves on. */
  lemma NamingAnotherRevivesVoid()
    ensures var b := TwoInvoices(Void, Draft);
            var r := UpdateInvoice(0, Some(1), Some("admin"), Some(Pending), None, true);
            && Reachable(b) && Accepted(b, r) && !Told(b, r)
            && !Reaches(b.invoices[0].status, Step(b, r).0.invoices[0].status)
  {
    assert Run(EMPTY, []) == EMPTY;
    Next(EMPTY, NewInvoice(), OneInvoice(Draft, []));
    Next(OneInvoice(Draft, []), NewInvoice(), TwoInvoices(Draft, Draft));
    Next(TwoInvoices(Draft, Draft), Move(0, Void), TwoInvoices(Void, Draft));
  }

  /** With a waiting payment named, a completed one is withdrawn. */
  lemma NamingAnotherUndoesPayment()
    ensures var b := OneInvoice(Sent, [Payment(0, 60, Completed), Payment(0, 10, Waiting)]);
            var r := UpdatePayment(0, Some(1), Some("finance"), Some(Failed), true);
            && Reachable(b) && Accepted(b, r) && !Told(b, r)
            && !PaymentMayBecome(b.payments[0], Step(b, r).0.payments[0])
  {
    OneCompleted();
    var done, next := Payment(0, 60, Completed), Payment(0, 10, Waiting);
    SumOne(done);
    Paying([done], 10);
    assert [done] + [next] == [done, next];
    WithdrawsOther(OneInvoice(Sent, [done, next]));
  }

  lemma WithdrawsOther(b: Books)
    requires |b.payments| == 2 && b.payments[0].status == Completed && b.payments[1].status == Waiting
    ensures var r := UpdatePayment(0, Some(1), Some("finance"), Some(Failed), true);
            Accepted(b, r) && !Told(b, r) && Step(b, r).0.payments[0].status == Failed
  {
  }

  lemma OneCompleted()
    ensures Reachable(OneInvoice(Sent, [Payment(0, 60, Completed)]))
  {
    var waiting, done := Payment(0, 60, Waiting), Payment(0, 60, Completed);
    OneInvoiceSent();
    Paying([], 60);
    assert [] + [waiting] == [waiting] && [waiting][0 := done] == [done];
    OnlyPaymentSum(waiting);
    Next(OneInvoice(Sent, [waiting]), Mark(0, Completed), OneInvoice(Sent, [done]));
  }

  lemma OnlyPaymentSum(p: Payment)
    ensures Sum([p], 0, DONE, {0}) == 0
  {
    assert [p][..0] == [];
  }
}
