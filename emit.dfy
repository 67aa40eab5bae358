/**
 * The text emission of `StructWriter`: `write_ptr`, `write_ptrwrite`, `write_step`,
 * `write_outer` and `write_struct`. Each step type is first described by a `StepPlan`
 * (which methods it has, which field each one touches, the type text it emits) and then
 * rendered to exactly the text the `format!` templates produce.
 */
module Emit {
  import opened Wrappers
  import opened Config
  import Text

  /** A writer the emitters can run on: they index `fields[0]` and `fields[step - 1]` unguarded. */
  predicate Emittable(w: StructWriter) {
    |w.fields| > 0
  }

  /** `v.replace("'_", &self.lt)`: the type text emitted for a declared field type. */
  function Subst(w: StructWriter, ty: string): string {
    Text.Replace(ty, Text.Placeholder, w.lt)
  }

  function Num(n: nat): string {
    Text.NatToString(n)
  }

  /** A field name together with the type text emitted for it. */
  datatype Accessor = Accessor(field: string, ty: string)

  /** One accessor per declared field, in declaration order, each with its substituted type. */
  function Accessors(w: StructWriter, fs: seq<Field>): (r: seq<Accessor>)
    ensures |r| == |fs|
    ensures forall i :: 0 <= i < |fs| ==> r[i] == Accessor(fs[i].name, Subst(w, fs[i].ty))
  {
    if fs == [] then [] else [Accessor(fs[0].name, Subst(w, fs[0].ty))] + Accessors(w, fs[1..])
  }

  /** The `Drop` impl of a step: the field it reads back, and the step it re-wraps the buffer as. */
  datatype ReleasePlan = ReleasePlan(field: string, rewrapAs: Option<nat>)

  /** The members of `Step{index}`. */
  datatype StepPlan = StepPlan(
    index: nat,
    ctor: Option<Accessor>,     // `new(p: ty)` writing field `field`
    build: Option<string>,      // `build(self) -> super::name`
    advance: Option<Accessor>,  // method named after the next field; its closure returns `ty`
    getters: seq<Accessor>,
    release: ReleasePlan)

  /** What `write_step(step)` decides to emit. */
  function PlanStep(w: StructWriter, step: nat): StepPlan
    requires 1 <= step <= |w.fields|
  {
    var n := |w.fields|;
    StepPlan(
      step,
      if step == 1 then Some(Accessor(w.fields[0].name, w.fields[0].ty)) else None,
      if step == n then Some(w.name) else None,
      if step < n then Some(Accessor(w.fields[step].name, Subst(w, w.fields[step].ty))) else None,
      Accessors(w, w.fields[..step]),
      ReleasePlan(w.fields[step - 1].name, if step > 1 then Some(step - 1) else None))
  }

  // ---------------------------------------------------------------------------
  // The text, template by template.

  /** `write_ptrwrite(container, k, consume)` */
  function WritePtrWrite(container: string, k: string, consume: string): string {
    "unsafe { ::std::ptr::write(Ptr::" + k + "(& " + container + ") as *const _ as *mut _, " + consume + ") }"
  }

  /** The check every view makes that the buffer has the length of `Raw`. */
  const LengthCheck := "debug_assert_eq!(::std::mem::size_of::<Raw<'static>>(), a.len());"

  /** One view function of the `Ptr` impl. */
  function ViewText(lt: string, a: Accessor, mutStr: string, ptrStr: string): string {
    ViewHead(lt, a, mutStr) + LengthCheck + ViewTail(lt, a, mutStr, ptrStr)
  }

  function ViewHead(lt: string, a: Accessor, mutStr: string): string {
    "\n        unsafe fn " + a.field + "<" + lt + ">(a: & " + lt + " " + mutStr + " Box<[u8]>) -> & "
    + lt + " " + mutStr + " " + a.ty + " {\n"
    + "            "
  }

  function ViewTail(lt: string, a: Accessor, mutStr: string, ptrStr: string): string {
    "\n"
    + "            &" + mutStr + " (&" + mutStr + " *(&" + mutStr + " a[0] as *" + ptrStr + " _ as *"
    + ptrStr + " Raw<" + lt + ">))." + a.field + "\n"
    + "        }\n"
  }

  function ViewList(lt: string, as_: seq<Accessor>, mutStr: string, ptrStr: string): seq<string> {
    seq(|as_|, i requires 0 <= i < |as_| => ViewText(lt, as_[i], mutStr, ptrStr))
  }

  function ViewsText(lt: string, as_: seq<Accessor>, mutStr: string, ptrStr: string): string {
    Text.Lines(ViewList(lt, as_, mutStr, ptrStr))
  }

  /** `write_ptr(ptr_ty, mutstr, ptrstr)`: one view per field, in declaration order. */
  function WritePtr(w: StructWriter, ptrTy: string, mutStr: string, ptrStr: string): string {
    PtrOpen(ptrTy) + ViewsText(w.lt, Accessors(w, w.fields), mutStr, ptrStr) + "    }\n"
  }

  function PtrOpen(ptrTy: string): string {
    "\n    struct " + ptrTy + " {}\n    impl " + ptrTy + " {"
  }

  /** The signature line of `Step1::new`, with the parameter type as given. */
  function CtorSignature(ty: string): string {
    "\n        pub fn new(p: " + ty + ") -> Step1 {\n"
  }

  function CtorText(a: Accessor): string {
    CtorSignature(a.ty) + CtorBody(a)
  }

  function CtorBody(a: Accessor): string {
    "            let v = vec!(0; ::std::mem::size_of::<Raw<'static>>());\n"
    + "            let r = v.into_boxed_slice();\n"
    + "            " + WritePtrWrite("r", a.field, "p") + ";\n"
    + "            Step1(r)\n"
    + "        }"
  }

  function BuildText(name: string): string {
    "\n        pub fn build(self) -> super::" + name + " { super::" + name + "(self) }"
  }

  function AdvanceText(lt: string, a: Accessor, target: nat): string {
    "\n        pub fn " + a.field + "<F>(mut self, f: F) -> Step" + Num(target) + "\n"
    + "            where F: for<" + lt + "> FnOnce(&" + lt + " Self) -> " + a.ty + "\n"
    + "        {\n"
    + "            {\n"
    + "                let r = f(&self);\n"
    + "                " + WritePtrWrite("self.0", a.field, "r") + ";\n"
    + "            }\n"
    + "            let b = ::std::mem::replace(&mut self.0, Box::new([]));\n"
    + "            ::std::mem::forget(self);\n"
    + "            Step" + Num(target) + "(b)\n"
    + "        }"
  }

  function GetterText(lt: string, a: Accessor): string {
    "\n        pub fn " + a.field + "<" + lt + ">(&" + lt + " self) -> &" + lt + " " + a.ty + " {\n"
    + "            unsafe { Ptr::" + a.field + "(&self.0) }\n"
    + "        }"
  }

  function GetterList(lt: string, gs: seq<Accessor>): seq<string> {
    seq(|gs|, i requires 0 <= i < |gs| => GetterText(lt, gs[i]))
  }

  function GettersText(lt: string, gs: seq<Accessor>): string {
    Text.Lines(GetterList(lt, gs))
  }

  function ReleaseText(index: nat, r: ReleasePlan): string {
    "\n    impl Drop for Step" + Num(index) + " {\n"
    + "        fn drop(&mut self) {\n"
    + "            let _ = unsafe { ::std::ptr::read(Ptr::" + r.field + "(&self.0)) };"
    + (match r.rewrapAs
       case Some(j) => "\n            let _ = Step" + Num(j) + "(::std::mem::replace(&mut self.0, Box::new([])));"
       case None => "")
    + "\n        }\n"
    + "    }"
  }

  function StepOpen(index: nat): string {
    "\n    #[derive(Debug)]\n    pub struct Step" + Num(index) + "(Box<[u8]>);\n    impl Step" + Num(index) + " {"
  }

  function CtorPart(p: StepPlan): string {
    match p.ctor case Some(a) => CtorText(a) case None => ""
  }

  function BuildPart(p: StepPlan): string {
    match p.build case Some(name) => BuildText(name) case None => ""
  }

  function AdvancePart(lt: string, p: StepPlan): string {
    match p.advance case Some(a) => AdvanceText(lt, a, p.index + 1) case None => ""
  }

  function RenderStep(lt: string, p: StepPlan): string {
    StepOpen(p.index) + CtorPart(p) + BuildPart(p) + AdvancePart(lt, p)
    + GettersText(lt, p.getters)
    + "\n    }\n"
    + ReleaseText(p.index, p.release)
  }

  /** `write_step(step)` */
  function WriteStep(w: StructWriter, step: nat): string
    requires 1 <= step <= |w.fields|
  {
    RenderStep(w.lt, PlanStep(w, step))
  }

  /** `for i in 0..n { s.push_str(&self.write_step(i+1)) }`: `Step1` .. `Step{n}`, in that order. */
  function WriteSteps(w: StructWriter, n: nat): string
    requires n <= |w.fields|
  {
    Text.Concat(StepTexts(w), n)
  }

  /** `k => write_step(k)` on the steps that exist. */
  function StepTexts(w: StructWriter): nat -> string {
    k => if 1 <= k <= |w.fields| then WriteStep(w, k) else ""
  }

  function OuterAccessorText(lt: string, a: Accessor): string {
    "\n\n    #[allow(dead_code)]\n    #[inline]\n    pub fn " + a.field + "<" + lt + ">(&" + lt + " self) -> &"
    + lt + " " + a.ty + " { self.0." + a.field + "() }"
  }

  function OuterAccessorList(lt: string, as_: seq<Accessor>): seq<string> {
    seq(|as_|, i requires 0 <= i < |as_| => OuterAccessorText(lt, as_[i]))
  }

  function OuterAccessorsText(lt: string, as_: seq<Accessor>): string {
    Text.Lines(OuterAccessorList(lt, as_))
  }

  /** The head of the outer `new`, with the parameter type as given. */
  function OuterNewSignature(ty: string): string {
    "    pub fn new(a: " + ty + ") -> "
  }

  /** `write_outer()`: the public wrapper of the last step; `new` takes the first field's raw type. */
  function WriteOuter(w: StructWriter): string
    requires Emittable(w)
  {
    OuterHead(w) + OuterNewSignature(w.fields[0].ty) + OuterTail(w)
  }

  function OuterHead(w: StructWriter): string {
    "\n#[derive(Debug)]\npub struct " + w.name + "(" + w.moduleName + "::Step" + Num(|w.fields|) + ");\n"
    + "impl " + w.name + " {\n"
    + "    #[allow(dead_code)]\n"
    + "    #[inline]\n"
  }

  function OuterTail(w: StructWriter): string {
    OuterNewRest(w) + OuterAccessorsText(w.lt, Accessors(w, w.fields)) + "\n}\n"
  }

  function OuterNewRest(w: StructWriter): string {
    w.moduleName + "::Step1 { " + w.moduleName + "::Step1::new(a) }"
  }

  /** `use i;` */
  function UseLine(i: string): string {
    "\n    use " + i + ";"
  }

  function UseList(imports: seq<string>): seq<string> {
    seq(|imports|, i requires 0 <= i < |imports| => UseLine(imports[i]))
  }

  function UsesText(imports: seq<string>): string {
    Text.Lines(UseList(imports))
  }

  /** The member `name: ty,` of `Raw`. */
  function RawMember(a: Accessor): string {
    "        " + a.field + ": " + a.ty + ",\n"
  }

  function RawMemberList(as_: seq<Accessor>): seq<string> {
    seq(|as_|, i requires 0 <= i < |as_| => RawMember(as_[i]))
  }

  function RawMembersText(as_: seq<Accessor>): string {
    Text.Lines(RawMemberList(as_))
  }

  /** `pub mod module {` */
  function ModuleOpen(w: StructWriter): string {
    "#[allow(dead_code)]\npub mod " + w.moduleName + " {\n"
  }

  /** `struct Raw<lt>` with one member per field. */
  function RawText(w: StructWriter): string {
    RawOpen(w) + RawMembersText(Accessors(w, w.fields)) + "    }\n"
  }

  function RawOpen(w: StructWriter): string {
    "\n" + "    struct Raw<" + w.lt + "> {\n"
  }

  /** Everything of the module before the steps: header, imports, `Raw` and the `Ptr` views. */
  function ModuleHead(w: StructWriter): string {
    ModuleOpen(w) + UsesText(w.imports) + RawText(w) + WritePtr(w, "Ptr", "", "const")
  }

  /** The generated module: its head, `Step1..StepN`, and the module's close. */
  function ModuleText(w: StructWriter): string
    requires Emittable(w)
  {
    ModuleHead(w) + WriteSteps(w, |w.fields|) + "\n}\n"
  }

  /** `write_struct()`: the module, then the outer struct outside it. */
  function WriteStruct(w: StructWriter): string
    requires Emittable(w)
  {
    ModuleText(w) + WriteOuter(w)
  }

  /** The accessor of field i as every emitter other than `new` renders it. */
  function FieldAccessor(w: StructWriter, i: nat): Accessor
    requires i < |w.fields|
  {
    Accessor(w.fields[i].name, Subst(w, w.fields[i].ty))
  }
}
