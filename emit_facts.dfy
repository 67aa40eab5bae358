/**
 * What the text emitted by `write_step`, `write_ptr`, `write_outer` and `write_struct`
 * promises: which members every step has, where the placeholder is substituted, and that
 * every part appears in declaration order.
 */
module EmitFacts {
  import opened Wrappers
  import opened Config
  import opened Emit
  import Text

  /**
   * Which methods `Step{k}` of `N` has: `new` exactly when k = 1, taking the first field's
   * declared type as written; `build` returning `super::name` exactly when k = N; a
   * transition named after field k+1, leading to `Step{k+1}` and returning that field's
   * substituted type, exactly when k < N; getters for exactly fields 1..k, in order; and a
   * `Drop` that reads field k back and re-wraps the buffer as `Step{k-1}` exactly when k > 1.
   */
  lemma StepMethods(w: StructWriter, k: nat)
    requires 1 <= k <= |w.fields|
    ensures var p := PlanStep(w, k); var n := |w.fields|;
      && p.index == k
      && (p.ctor.Some? <==> k == 1)
      && (k == 1 ==> p.ctor.value == Accessor(w.fields[0].name, w.fields[0].ty))
      && (p.build.Some? <==> k == n)
      && (k == n ==> p.build.value == w.name)
      && (p.advance.Some? <==> k < n)
      && (k < n ==> p.advance.value == Accessor(w.fields[k].name, Subst(w, w.fields[k].ty)))
      && |p.getters| == k
      && (forall i :: 0 <= i < k ==> p.getters[i] == Accessor(w.fields[i].name, Subst(w, w.fields[i].ty)))
      && p.release.field == w.fields[k - 1].name
      && (p.release.rewrapAs.Some? <==> k > 1)
      && (k > 1 ==> p.release.rewrapAs.value == k - 1)
  {
  }

  /**
   * Every type emitted for a field, as a `Raw` member, a view, a step getter, a transition's
   * closure result or an outer accessor, is the declared type with the placeholder replaced by
   * the lifetime. A declared type without the placeholder is emitted unchanged, and when the
   * lifetime is `'m` for a non-empty `m` with no apostrophe and no leading `_`, no placeholder
   * is left.
   */
  lemma SubstitutionSites(w: StructWriter, i: nat)
    requires i < |w.fields|
    ensures Accessors(w, w.fields)[i] == Accessor(w.fields[i].name, Subst(w, w.fields[i].ty))
    ensures forall k :: i < k <= |w.fields| ==> PlanStep(w, k).getters[i].ty == Subst(w, w.fields[i].ty)
    ensures 1 <= i ==> PlanStep(w, i).advance == Some(Accessor(w.fields[i].name, Subst(w, w.fields[i].ty)))
    ensures !Text.Contains(w.fields[i].ty, Text.Placeholder) ==> Subst(w, w.fields[i].ty) == w.fields[i].ty
    ensures forall m :: w.lt == "'" + m && m != [] && m[0] != '_' && '\'' !in m ==>
              !Text.Contains(Subst(w, w.fields[i].ty), Text.Placeholder)
  {
    if !Text.Contains(w.fields[i].ty, Text.Placeholder) {
      Text.ReplaceAbsent(w.fields[i].ty, Text.Placeholder, w.lt);
    }
    forall m | w.lt == "'" + m && m != [] && m[0] != '_' && '\'' !in m
      ensures !Text.Contains(Subst(w, w.fields[i].ty), Text.Placeholder)
    {
      Text.ReplacePlaceholderComplete(w.fields[i].ty, m);
    }
  }

  /**
   * `Step1::new` takes the first field's type exactly as declared: it is not passed through
   * the substitution, unlike every other emitted field type.
   */
  lemma NewTakesDeclaredType(w: StructWriter)
    requires Emittable(w)
    ensures Text.Contains(WriteStep(w, 1), CtorSignature(w.fields[0].ty))
  {
    var p := PlanStep(w, 1);
    var sig := CtorSignature(w.fields[0].ty);
    Text.PrefixOfConcat(sig, CtorBody(p.ctor.value));
    assert Text.Contains(CtorPart(p), sig);
    Text.ContainsRight(StepOpen(1), CtorPart(p), sig);
    var s := StepOpen(1) + CtorPart(p);
    Text.ContainsLeft(s, BuildPart(p), sig);
    s := s + BuildPart(p);
    Text.ContainsLeft(s, AdvancePart(w.lt, p), sig);
    s := s + AdvancePart(w.lt, p);
    Text.ContainsLeft(s, GettersText(w.lt, p.getters), sig);
    s := s + GettersText(w.lt, p.getters);
    Text.ContainsLeft(s, "\n    }\n", sig);
    s := s + "\n    }\n";
    Text.ContainsLeft(s, ReleaseText(p.index, p.release), sig);
  }

  /** The outer struct's `new` also takes the first field's type exactly as declared. */
  lemma OuterNewTakesDeclaredType(w: StructWriter)
    requires Emittable(w)
    ensures Text.Contains(WriteOuter(w), OuterNewSignature(w.fields[0].ty))
  {
    Text.ContainsInfix(OuterHead(w), OuterNewSignature(w.fields[0].ty), OuterTail(w));
  }

  /** For a first field declared as `Dev<'_>`, the substituted type and the declared one differ. */
  lemma DeclaredTypeIsNotSubstituted()
    ensures var w := StructWriter("Foo", "foo", "'foo", [], [Field("dev", "Dev<'_>")]);
            PlanStep(w, 1).ctor.value.ty == "Dev<'_>" && Accessors(w, w.fields)[0].ty == "Dev<'foo>"
  {
    var ty: string := "Dev<'_>";
    assert ty[0] == 'D' && ty[1] == 'e' && ty[2] == 'v' && ty[3] == '<' && ty[4] == '\'' && ty[5] == '_';
    assert !Text.IsPrefix(Text.Placeholder, ty);
    assert !Text.IsPrefix(Text.Placeholder, ty[1..]);
    assert !Text.IsPrefix(Text.Placeholder, ty[2..]);
    assert !Text.IsPrefix(Text.Placeholder, ty[3..]);
    assert Text.IsPrefix(Text.Placeholder, ty[4..]);
    assert ty[4..][2..] == ">";
    assert Text.Replace(">", Text.Placeholder, "'foo") == ">";
  }

  /** Every `Step{k}` of the first n is part of their text. */
  lemma StepEmitted(w: StructWriter, k: nat, n: nat)
    requires 1 <= k <= n <= |w.fields|
    ensures Text.Contains(WriteSteps(w, n), WriteStep(w, k))
  {
    Text.ConcatHasPart(StepTexts(w), k, n);
  }

  /**
   * The steps are emitted one after another: `Step{j}` is immediately followed by `Step{j+1}`
   * (`StepTexts(w)(k)` is `write_step(k)`).
   */
  lemma StepsInOrder(w: StructWriter, j: nat, n: nat)
    requires 1 <= j < n <= |w.fields|
    ensures Text.Contains(WriteSteps(w, n), StepTexts(w)(j) + StepTexts(w)(j + 1))
  {
    Text.ConcatAdjacent(StepTexts(w), j, n, StepTexts(w)(j), StepTexts(w)(j + 1));
  }

  /**
   * `write_struct` opens with the module header, one `use` line per import and `Raw` with one
   * member per field.
   */
  lemma StructOpensWithModule(w: StructWriter)
    requires Emittable(w)
    ensures Text.IsPrefix(ModuleOpen(w) + UsesText(w.imports) + RawText(w), WriteStruct(w))
  {
    var head, steps := ModuleHead(w), WriteSteps(w, |w.fields|);
    var front := ModuleOpen(w) + UsesText(w.imports) + RawText(w);
    Text.PrefixOfConcat(front, WritePtr(w, "Ptr", "", "const"));
    Text.PrefixExtends(front, head, steps);
    Text.PrefixExtends(front, head + steps, "\n}\n");
    Text.PrefixExtends(front, ModuleText(w), WriteOuter(w));
  }

  /** Every step's text is part of the output of `write_struct`. */
  lemma StructHasStep(w: StructWriter, k: nat)
    requires Emittable(w) && 1 <= k <= |w.fields|
    ensures Text.Contains(WriteStruct(w), WriteStep(w, k))
  {
    var head, steps, step := ModuleHead(w), WriteSteps(w, |w.fields|), WriteStep(w, k);
    StepEmitted(w, k, |w.fields|);
    Text.ContainsRight(head, steps, step);
    Text.ContainsLeft(head + steps, "\n}\n", step);
    Text.ContainsLeft(ModuleText(w), WriteOuter(w), step);
  }

  /** The outer struct follows the module's closing brace, outside the module. */
  lemma StructEndsWithOuter(w: StructWriter)
    requires Emittable(w)
    ensures Text.Contains(WriteStruct(w), "\n}\n" + WriteOuter(w))
  {
    var inner, close, outer := ModuleHead(w) + WriteSteps(w, |w.fields|), "\n}\n", WriteOuter(w);
    Text.ConcatAssoc(inner, close, outer);
    Text.ContainsSelf(close + outer);
    Text.ContainsRight(inner, close + outer, close + outer);
  }


  /** The `Ptr` impl holds the view of every field, and every view checks the buffer's length. */
  lemma PtrHasView(w: StructWriter, i: nat)
    requires i < |w.fields|
    ensures Text.Contains(WritePtr(w, "Ptr", "", "const"), ViewText(w.lt, FieldAccessor(w, i), "", "const"))
    ensures Text.Contains(ViewText(w.lt, FieldAccessor(w, i), "", "const"), LengthCheck)
  {
    var a := FieldAccessor(w, i);
    var list := ViewList(w.lt, Accessors(w, w.fields), "", "const");
    var view := ViewText(w.lt, a, "", "const");
    assert list[i] == view;
    Text.LinesHasItem(list, i);
    Text.ContainsRight(PtrOpen("Ptr"), Text.Lines(list), view);
    Text.ContainsLeft(PtrOpen("Ptr") + Text.Lines(list), "    }\n", view);
    Text.ContainsInfix(ViewHead(w.lt, a, ""), LengthCheck, ViewTail(w.lt, a, "", "const"));
  }

  /** The view of field i is immediately followed by the view of field i+1. */
  lemma PtrViewsInOrder(w: StructWriter, i: nat)
    requires i + 1 < |w.fields|
    ensures Text.Contains(WritePtr(w, "Ptr", "", "const"),
                          ViewText(w.lt, FieldAccessor(w, i), "", "const")
                          + ViewText(w.lt, FieldAccessor(w, i + 1), "", "const"))
  {
    var list := ViewList(w.lt, Accessors(w, w.fields), "", "const");
    var pair := list[i] + list[i + 1];
    Text.LinesInOrder(list, i);
    Text.ContainsRight(PtrOpen("Ptr"), Text.Lines(list), pair);
    Text.ContainsLeft(PtrOpen("Ptr") + Text.Lines(list), "    }\n", pair);
  }

  /** One `use` line per import, each followed by its successor's. */
  lemma UsesInOrder(w: StructWriter, i: nat)
    requires i < |w.imports|
    ensures Text.Contains(UsesText(w.imports), UseLine(w.imports[i]))
    ensures i + 1 < |w.imports| ==> Text.Contains(UsesText(w.imports), UseLine(w.imports[i]) + UseLine(w.imports[i + 1]))
  {
    var list := UseList(w.imports);
    Text.LinesHasItem(list, i);
    if i + 1 < |w.imports| {
      Text.LinesInOrder(list, i);
    }
  }

  /** `Raw` has a member for every field, with its substituted type, in declaration order. */
  lemma RawHasMember(w: StructWriter, i: nat)
    requires i < |w.fields|
    ensures Text.Contains(RawText(w), RawMember(FieldAccessor(w, i)))
    ensures i + 1 < |w.fields| ==>
              Text.Contains(RawText(w), RawMember(FieldAccessor(w, i)) + RawMember(FieldAccessor(w, i + 1)))
  {
    var list := RawMemberList(Accessors(w, w.fields));
    var item := list[i];
    Text.LinesHasItem(list, i);
    Text.ContainsRight(RawOpen(w), Text.Lines(list), item);
    Text.ContainsLeft(RawOpen(w) + Text.Lines(list), "    }\n", item);
    if i + 1 < |w.fields| {
      var pair := list[i] + list[i + 1];
      Text.LinesInOrder(list, i);
      Text.ContainsRight(RawOpen(w), Text.Lines(list), pair);
      Text.ContainsLeft(RawOpen(w) + Text.Lines(list), "    }\n", pair);
    }
  }

  /** `Step{k}` has the getter of every field i < k, returning the substituted type. */
  lemma StepHasGetter(w: StructWriter, k: nat, i: nat)
    requires i < k <= |w.fields|
    ensures Text.Contains(WriteStep(w, k), GetterText(w.lt, FieldAccessor(w, i)))
  {
    var p := PlanStep(w, k);
    var list := GetterList(w.lt, p.getters);
    var g := GetterText(w.lt, FieldAccessor(w, i));
    assert list[i] == g;
    Text.LinesHasItem(list, i);
    var s := StepOpen(k) + CtorPart(p) + BuildPart(p) + AdvancePart(w.lt, p);
    Text.ContainsRight(s, GettersText(w.lt, p.getters), g);
    s := s + GettersText(w.lt, p.getters);
    Text.ContainsLeft(s, "\n    }\n", g);
    s := s + "\n    }\n";
    Text.ContainsLeft(s, ReleaseText(p.index, p.release), g);
  }

  /** Text inside the `build` part of a step is inside the step's text. */
  lemma BuildInStep(lt: string, p: StepPlan, t: string)
    requires Text.Contains(BuildPart(p), t)
    ensures Text.Contains(RenderStep(lt, p), t)
  {
    var s := StepOpen(p.index) + CtorPart(p);
    Text.ContainsRight(s, BuildPart(p), t);
    s := s + BuildPart(p);
    Text.ContainsLeft(s, AdvancePart(lt, p), t);
    s := s + AdvancePart(lt, p);
    Text.ContainsLeft(s, GettersText(lt, p.getters), t);
    s := s + GettersText(lt, p.getters);
    Text.ContainsLeft(s, "\n    }\n", t);
    s := s + "\n    }\n";
    Text.ContainsLeft(s, ReleaseText(p.index, p.release), t);
  }

  /** Text inside the transition part of a step is inside the step's text. */
  lemma AdvanceInStep(lt: string, p: StepPlan, t: string)
    requires Text.Contains(AdvancePart(lt, p), t)
    ensures Text.Contains(RenderStep(lt, p), t)
  {
    var s := StepOpen(p.index) + CtorPart(p) + BuildPart(p);
    Text.ContainsRight(s, AdvancePart(lt, p), t);
    s := s + AdvancePart(lt, p);
    Text.ContainsLeft(s, GettersText(lt, p.getters), t);
    s := s + GettersText(lt, p.getters);
    Text.ContainsLeft(s, "\n    }\n", t);
    s := s + "\n    }\n";
    Text.ContainsLeft(s, ReleaseText(p.index, p.release), t);
  }

  /** The last step's text has `build(self) -> super::name`. */
  lemma LastStepHasBuild(w: StructWriter)
    requires Emittable(w)
    ensures Text.Contains(WriteStep(w, |w.fields|), BuildText(w.name))
  {
    var p := PlanStep(w, |w.fields|);
    var bt := BuildText(w.name);
    assert BuildPart(p) == bt;
    Text.ContainsSelf(bt);
    BuildInStep(w.lt, p, bt);
  }

  /**
   * Every step but the last has the transition named after the next field, leading to
   * `Step{k+1}` with that field's substituted type as the closure's result.
   */
  lemma StepHasAdvance(w: StructWriter, k: nat)
    requires 1 <= k < |w.fields|
    ensures Text.Contains(WriteStep(w, k), AdvanceText(w.lt, FieldAccessor(w, k), k + 1))
  {
    var p := PlanStep(w, k);
    var at := AdvanceText(w.lt, FieldAccessor(w, k), k + 1);
    PlanAdvance(w, k);
    AdvancePartIs(w.lt, p, FieldAccessor(w, k), k + 1);
    Text.ContainsSelf(at);
    AdvanceInStep(w.lt, p, at);
  }

  lemma PlanAdvance(w: StructWriter, k: nat)
    requires 1 <= k < |w.fields|
    ensures PlanStep(w, k).advance == Some(FieldAccessor(w, k)) && PlanStep(w, k).index == k
  {
  }

  lemma AdvancePartIs(lt: string, p: StepPlan, a: Accessor, t: nat)
    requires p.advance == Some(a) && t == p.index + 1
    ensures AdvancePart(lt, p) == AdvanceText(lt, a, t)
  {
  }

  /**
   * `Step1::new` stores its argument `p` into the freshly allocated box `r` through the view
   * of the first field.
   */
  lemma CtorWritesFirstField(a: Accessor)
    ensures Text.Contains(CtorText(a), WritePtrWrite("r", a.field, "p"))
  {
    var pw := WritePtrWrite("r", a.field, "p");
    var pre := CtorSignature(a.ty)
               + "            let v = vec!(0; ::std::mem::size_of::<Raw<'static>>());\n"
               + "            let r = v.into_boxed_slice();\n"
               + "            ";
    var post := ";\n" + "            Step1(r)\n" + "        }";
    assert CtorText(a) == pre + pw + post;
    Text.ContainsInfix(pre, pw, post);
  }

  /**
   * A transition stores the closure's result `r` into its own box `self.0` through the view
   * of the field it is named after, before handing the box on.
   */
  lemma AdvanceWritesField(lt: string, a: Accessor, target: nat)
    ensures Text.Contains(AdvanceText(lt, a, target), WritePtrWrite("self.0", a.field, "r"))
  {
    var pw := WritePtrWrite("self.0", a.field, "r");
    var pre := "\n        pub fn " + a.field + "<F>(mut self, f: F) -> Step" + Num(target) + "\n"
               + "            where F: for<" + lt + "> FnOnce(&" + lt + " Self) -> " + a.ty + "\n"
               + "        {\n"
               + "            {\n"
               + "                let r = f(&self);\n"
               + "                ";
    var post := ";\n"
                + "            }\n"
                + "            let b = ::std::mem::replace(&mut self.0, Box::new([]));\n"
                + "            ::std::mem::forget(self);\n"
                + "            Step" + Num(target) + "(b)\n"
                + "        }";
    assert AdvanceText(lt, a, target) == pre + pw + post;
    Text.ContainsInfix(pre, pw, post);
  }

  /**
   * Every step's text ends with its `Drop` impl, which reads field k back and, for k > 1,
   * re-wraps the buffer as `Step{k-1}`.
   */
  lemma StepHasRelease(w: StructWriter, k: nat)
    requires 1 <= k <= |w.fields|
    ensures Text.Contains(WriteStep(w, k),
                          ReleaseText(k, ReleasePlan(w.fields[k - 1].name, if k > 1 then Some(k - 1) else None)))
  {
    var p := PlanStep(w, k);
    var rt := ReleaseText(p.index, p.release);
    Text.ContainsSelf(rt);
    var s := StepOpen(k) + CtorPart(p) + BuildPart(p) + AdvancePart(w.lt, p)
             + GettersText(w.lt, p.getters) + "\n    }\n";
    Text.ContainsRight(s, rt, rt);
  }

  /** The outer struct forwards an accessor for every field, returning the substituted type. */
  lemma OuterHasAccessor(w: StructWriter, i: nat)
    requires i < |w.fields|
    ensures Text.Contains(WriteOuter(w), OuterAccessorText(w.lt, FieldAccessor(w, i)))
  {
    var list := OuterAccessorList(w.lt, Accessors(w, w.fields));
    var item := OuterAccessorText(w.lt, FieldAccessor(w, i));
    assert list[i] == item;
    Text.LinesHasItem(list, i);
    Text.ContainsRight(OuterNewRest(w), Text.Lines(list), item);
    Text.ContainsLeft(OuterNewRest(w) + Text.Lines(list), "\n}\n", item);
    Text.ContainsRight(OuterHead(w) + OuterNewSignature(w.fields[0].ty), OuterTail(w), item);
  }
}
