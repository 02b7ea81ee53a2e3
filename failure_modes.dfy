/**
 * The failure-mode knowledge base and the list of modes the analysis wizard
 * offers for a function type: the generic modes together with the type's own,
 * without repeats, in ascending code-point order.
 */
module FailureModes {
  import opened Ordering

  const GenericType := "通用"

  /** `FAILURE_MODE_LIBRARY`: the typical failure modes per function type. */
  const Library: map<string, seq<string>> := map[
    GenericType := ["功能完全丧失", "功能间歇性工作", "功能性能下降", "功能非预期启动"],
    "传感器" := ["持续输出错误信息", "输出数据冻结/卡死", "数据跳变/噪声过大", "输出数据延迟"],
    "数据传输" := ["数据包丢失", "数据完整性破坏 (误码)", "通信中断"],
    "执行机构" := ["无响应/卡死", "响应延迟/迟钝", "动作超调/不到位", "反向运动"],
    "电源" := ["电压/电流异常", "供电中断"],
    "导航" := ["定位精度下降", "航向错误", "速度信息错误"],
    "飞控算法" := ["算法发散", "模式切换错误"]
  ]

  /** `FAILURE_MODE_LIBRARY.get(t, [])`. */
  function Lookup(functionType: string): seq<string>
  {
    if functionType in Library then Library[functionType] else []
  }

  /**
   * The modes offered for a function type (`get_failure_modes`): sorted,
   * duplicate-free, and holding exactly the generic modes and the type's own.
   */
  function Offered(functionType: string): (modes: seq<string>)
    ensures StrictlyIncreasing(modes)
    ensures forall m :: m in modes <==> m in Lookup(GenericType) || m in Lookup(functionType)
  {
    SortedSet(Lookup(GenericType) + Lookup(functionType))
  }

  /**
   * The desktop wizard builds the same list as a union of two sets before
   * sorting; any list holding exactly those values sorts to the same offer.
   */
  lemma {:induction false} OfferedFromUnion(functionType: string, xs: seq<string>)
    requires forall m :: m in xs <==> m in Lookup(GenericType) || m in Lookup(functionType)
    ensures SortedSet(xs) == Offered(functionType)
  {
    StrictlyIncreasingUnique(SortedSet(xs), Offered(functionType));
  }

  /** A type the library does not know, "" included, is offered the generic modes alone. */
  lemma {:induction false} UnknownTypeGetsGeneric(functionType: string)
    requires functionType !in Library
    ensures Offered(functionType) == SortedSet(Lookup(GenericType))
  {
    assert Lookup(GenericType) + Lookup(functionType) == Lookup(GenericType);
  }

  /** The generic type itself is offered the generic modes, each once. */
  lemma {:induction false} GenericTypeOffered()
    ensures Offered(GenericType) == SortedSet(Lookup(GenericType))
  {
    OfferedFromUnion(GenericType, Lookup(GenericType));
  }
}
